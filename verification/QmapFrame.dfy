/** QMAP framing in the GobiNet driver: the header each uplink packet gets, and the loop that
    takes a downlink aggregate apart again. */
module QmapFrame {
  import opened Common

  const MUX_BASE: byte := 0x81
  const MAX_PACKET := 1500
  /** RMNET_MAP_HEADER_TYPE_CSUM_OFFLOAD, stored in the upper seven bits of its byte. */
  const CSUM_OFFLOAD := 2

  /** `qmap_version` 5 writes a bare header, 9 a header followed by a checksum header. */
  datatype Version = V1 | V5

  // ---------------------------------------------------------------- uplink headers

  /** A socket buffer: the packet and the spare memory after it. */
  class SkBuff {
    var data: seq<byte>
    var headroom: nat
    var tail: seq<byte>

    constructor (data: seq<byte>, headroom: nat, tail: seq<byte>)
      ensures this.data == data && this.headroom == headroom && this.tail == tail
    {
      this.data, this.headroom, this.tail := data, headroom, tail;
    }

    /** __skb_put: the next `n` tail bytes, whatever they hold, become part of the packet. */
    method Put(n: nat)
      requires n <= |tail|
      modifies this
      ensures data == old(data) + old(tail)[..n] && tail == old(tail)[n..] && headroom == old(headroom)
    {
      data, tail := data + tail[..n], tail[n..];
    }

    /** skb_push followed by stores that fill the opened bytes. */
    method Push(hdr: seq<byte>)
      requires |hdr| <= headroom
      modifies this
      ensures data == hdr + old(data) && headroom == old(headroom) - |hdr| && tail == old(tail)
    {
      data, headroom := hdr + data, headroom - |hdr|;
    }
  }

  /** The fewest bytes that bring `len` to a multiple of four, or none exactly when none are missing or the
      tail is too short for them. */
  function PadFor(len: nat, tailroom: nat): (pad: nat)
    ensures pad < 4 && pad <= tailroom
    ensures pad > 0 ==> (len + pad) % 4 == 0
    ensures tailroom >= 3 ==> (len + pad) % 4 == 0
    ensures pad == 0 <==> len % 4 == 0 || len % 4 + tailroom < 4
  {
    var short := if len % 4 == 0 then 0 else 4 - len % 4;
    if short <= tailroom then short else 0
  }

  /** The header in front of a packet of `len` bytes followed by `pad` pad bytes; `pkt_len` is a
      16-bit big-endian field and keeps only the low bits of the sum. */
  function Header(v: Version, mux: byte, len: nat, pad: nat): (h: seq<byte>)
    requires pad < 64
  {
    var n := (len + pad) % 0x10000;
    match v
    case V1 => [pad, mux, n / 256, n % 256]
    case V5 => [64 + pad, mux, n / 256, n % 256, 2 * CSUM_OFFLOAD, 0, 0, 0]
  }

  function Frame(v: Version, mux: byte, pkt: seq<byte>, pad: seq<byte>): seq<byte>
    requires |pad| < 64
  {
    Header(v, mux, |pkt|, |pad|) + pkt + pad
  }

  method AddQhdr(skb: SkBuff, mux: byte)
    requires skb.headroom >= 4
    modifies skb
    ensures var pad := PadFor(|old(skb.data)|, |old(skb.tail)|);
            skb.data == Frame(V1, mux, old(skb.data), old(skb.tail)[..pad])
  {
    var pad := |skb.data| % 4;
    if pad != 0 {
      pad := 4 - pad;
      if |skb.tail| < pad {
        pad := 0;
      }
      if pad != 0 {
        skb.Put(pad);
      }
    }
    var n := |skb.data| % 0x10000;
    skb.Push([pad, mux, n / 256, n % 256]);
  }

  method AddQhdrV5(skb: SkBuff, mux: byte)
    requires skb.headroom >= 8
    modifies skb
    ensures var pad := PadFor(|old(skb.data)|, |old(skb.tail)|);
            skb.data == Frame(V5, mux, old(skb.data), old(skb.tail)[..pad])
  {
    var dataLen := |skb.data|;
    var padding := dataLen % 4;
    if padding != 0 {
      padding := 4 - padding;
      if |skb.tail| < padding {
        padding := 0;
      }
      if padding != 0 {
        skb.Put(padding);
      }
    }
    var n := (dataLen + padding) % 0x10000;
    skb.Push([64 + padding, mux, n / 256, n % 256, 2 * CSUM_OFFLOAD, 0, 0, 0]);
  }

  // ---------------------------------------------------------------- downlink

  datatype Proto = IPv4 | IPv6

  /** A packet handed up: the index of its network device, its protocol and its bytes. */
  datatype Rx = Rx(dev: nat, proto: Proto, payload: seq<byte>)

  /** The receive side's settings: how many mux ids are in use, which of them have a device, and
      the minimum padding announced by the modem (0 unless `qmap_version` is 9). */
  datatype RxCfg = RxCfg(qmapMode: nat, devs: set<nat>, minPad: nat)

  /** What the loop body does with the frame at the front of the buffer. `Fault` marks the inputs on
      which the C code leaves its own arrays or asks for a buffer of negative length. */
  datatype Verdict = Reject | Skip(total: nat) | Deliver(total: nat, rx: Rx) | Fault

  function HdrSize(b: byte): nat { if (b / 64) % 2 == 1 then 8 else 4 }

  function Classify(buf: seq<byte>, cfg: RxCfg): (v: Verdict)
    requires |buf| > 4
    ensures v.Skip? ==> 4 <= v.total <= |buf|
    ensures v.Deliver? ==> 4 <= v.total <= |buf| && |v.rx.payload| <= MAX_PACKET
  {
    var hdr := HdrSize(buf[0]);
    var pktLen := Be16(buf[2], buf[3]);
    var skbLen := pktLen - buf[0] % 64 - cfg.minPad;
    if skbLen > MAX_PACKET || |buf| < pktLen + hdr then Reject
    else if buf[0] >= 128 then Skip(pktLen + hdr)
    else if |buf| == hdr then Fault
    else if buf[hdr] / 16 != 4 && buf[hdr] / 16 != 6 then Reject
    else
      var proto := if buf[hdr] / 16 == 4 then IPv4 else IPv6;
      if buf[1] - MUX_BASE >= cfg.qmapMode then Reject
      else if buf[1] < MUX_BASE then Fault
      else if buf[1] - MUX_BASE !in cfg.devs then Skip(pktLen + hdr)
      else if skbLen < 0 then Fault
      else Deliver(pktLen + hdr, Rx(buf[1] - MUX_BASE, proto, buf[hdr..hdr + skbLen]))
  }

  datatype Walk = Walk(delivered: seq<Rx>, fault: bool)

  /** Everything the receive handler hands up for one buffer. */
  function Deframe(buf: seq<byte>, cfg: RxCfg): (w: Walk)
    decreases |buf|
  {
    if |buf| <= 4 then Walk([], false)
    else match Classify(buf, cfg)
      case Reject => Walk([], false)
      case Fault => Walk([], true)
      case Skip(total) => Deframe(buf[total..], cfg)
      case Deliver(total, rx) =>
        var w := Deframe(buf[total..], cfg);
        Walk([rx] + w.delivered, w.fault)
  }

  /** One pass of the receive loop's body, up to the copy of the packet. */
  method ParseFrame(skb: seq<byte>, cfg: RxCfg) returns (v: Verdict)
    requires |skb| > 4
    ensures v == Classify(skb, cfg)
  {
    var hdr := 4;
    var pktLen := Be16(skb[2], skb[3]);
    if (skb[0] / 64) % 2 == 1 {
      hdr := hdr + 4;
    }
    var skbLen := pktLen - skb[0] % 64;
    skbLen := skbLen - cfg.minPad;
    if skbLen > MAX_PACKET {
      return Reject;
    }
    if |skb| < pktLen + hdr {
      return Reject;
    }
    if skb[0] >= 128 {
      return Skip(pktLen + hdr);
    }
    if |skb| == hdr {
      return Fault;
    }
    var proto;
    match skb[hdr] / 16 {
      case 4 => proto := IPv4;
      case 6 => proto := IPv6;
      case _ => return Reject;
    }
    var mux := skb[1] - MUX_BASE;
    if mux >= cfg.qmapMode {
      return Reject;
    }
    if mux < 0 {
      return Fault;
    }
    if mux !in cfg.devs {
      return Skip(pktLen + hdr);
    }
    if skbLen < 0 {
      return Fault;
    }
    return Deliver(pktLen + hdr, Rx(mux, proto, skb[hdr..hdr + skbLen]));
  }

  method RxHandler(input: seq<byte>, cfg: RxCfg) returns (delivered: seq<Rx>, fault: bool)
    ensures Walk(delivered, fault) == Deframe(input, cfg)
  {
    var skb := input;
    var chain: seq<Rx> := [];
    fault := false;
    var more := true;
    while more && |skb| > 4
      invariant Deframe(input, cfg) == if more then Behind(chain, Deframe(skb, cfg)) else Walk(chain, fault)
      invariant more ==> !fault
      decreases more, |skb|
    {
      var v := ParseFrame(skb, cfg);
      match v
      case Reject =>
        more := false;
        assert chain + [] == chain;
      case Fault =>
        more, fault := false, true;
        assert chain + [] == chain;
      case Skip(total) =>
        skb := skb[total..];
      case Deliver(total, rx) =>
        BehindOne(chain, rx, Deframe(skb[total..], cfg));
        chain := chain + [rx];
        skb := skb[total..];
    }
    assert chain + [] == chain;
    delivered := HandUp(chain);
  }

  /** What a walk delivers once `chain` has been queued before it. */
  function Behind(chain: seq<Rx>, w: Walk): Walk { Walk(chain + w.delivered, w.fault) }

  lemma BehindOne(chain: seq<Rx>, rx: Rx, w: Walk)
    ensures Behind(chain, Walk([rx] + w.delivered, w.fault)) == Behind(chain + [rx], w)
  {
    assert chain + ([rx] + w.delivered) == (chain + [rx]) + w.delivered;
  }

  /** The end of the handler: the chain is handed up in the order it was queued. */
  method HandUp(queued: seq<Rx>) returns (delivered: seq<Rx>)
    ensures delivered == queued
  {
    delivered := [];
    var chain := queued;
    while chain != []
      invariant delivered + chain == queued
      decreases |chain|
    {
      delivered, chain := delivered + [chain[0]], chain[1..];
    }
  }

  // ---------------------------------------------------------------- properties

  /** `payloads` occur in `buf` at increasing, non-overlapping places. */
  ghost predicate InOrder(rxs: seq<Rx>, at: seq<nat>, buf: seq<byte>) {
    && |at| == |rxs|
    && (forall i :: 0 <= i < |rxs| ==> at[i] + |rxs[i].payload| <= |buf| && at[i] >= 4
                                       && buf[at[i]..at[i] + |rxs[i].payload|] == rxs[i].payload)
    && (forall i, j :: 0 <= i < j < |rxs| ==> at[i] + |rxs[i].payload| + 4 <= at[j])
  }

  /** Whatever the buffer, each delivered packet is a slice of it of at most 1500 bytes that goes to
      a registered device, the slices come in buffer order and do not overlap, and between any two
      of them lies at least a header. */
  lemma {:induction false} DeframeSlices(buf: seq<byte>, cfg: RxCfg) returns (at: seq<nat>)
    ensures InOrder(Deframe(buf, cfg).delivered, at, buf)
    ensures forall rx :: rx in Deframe(buf, cfg).delivered ==> |rx.payload| <= 1500 && rx.dev in cfg.devs && rx.dev < cfg.qmapMode
    decreases |buf|
  {
    at := [];
    if |buf| > 4 {
      match Classify(buf, cfg)
      case Reject =>
      case Fault =>
      case Skip(total) =>
        var rest := DeframeSlices(buf[total..], cfg);
        at := Shifted(Deframe(buf[total..], cfg).delivered, rest, buf, total);
      case Deliver(total, rx) =>
        var w := Deframe(buf[total..], cfg);
        var rest := DeframeSlices(buf[total..], cfg);
        at := Prepended(rx, w.delivered, rest, buf, total);
    }
  }

  lemma Prepended(rx: Rx, rxs: seq<Rx>, at: seq<nat>, buf: seq<byte>, total: nat) returns (out: seq<nat>)
    requires |buf| > 0 && HdrSize(buf[0]) + |rx.payload| <= total <= |buf|
    requires rx.payload == buf[HdrSize(buf[0])..HdrSize(buf[0]) + |rx.payload|]
    requires InOrder(rxs, at, buf[total..])
    ensures InOrder([rx] + rxs, out, buf)
  {
    var later := Shifted(rxs, at, buf, total);
    out := [HdrSize(buf[0])] + later;
    PutFirst(rx, rxs, later, buf, HdrSize(buf[0]), out);
  }

  lemma PutFirst(rx: Rx, rxs: seq<Rx>, later: seq<nat>, buf: seq<byte>, hdr: nat, out: seq<nat>)
    requires InOrder(rxs, later, buf) && hdr >= 4 && hdr + |rx.payload| <= |buf|
    requires rx.payload == buf[hdr..hdr + |rx.payload|] && out == [hdr] + later
    requires forall i :: 0 <= i < |later| ==> hdr + |rx.payload| + 4 <= later[i]
    ensures InOrder([rx] + rxs, out, buf)
  {
    var all := [rx] + rxs;
    forall i | 0 <= i < |all|
      ensures out[i] + |all[i].payload| <= |buf| && out[i] >= 4 && buf[out[i]..out[i] + |all[i].payload|] == all[i].payload
    {
      assert i > 0 ==> all[i] == rxs[i - 1] && out[i] == later[i - 1];
    }
    forall i, j | 0 <= i < j < |all| ensures out[i] + |all[i].payload| + 4 <= out[j] {
      assert i > 0 ==> all[i] == rxs[i - 1] && out[i] == later[i - 1];
      assert out[j] == later[j - 1];
    }
  }

  /** Places found in the rest of a buffer, counted from the buffer's start. */
  lemma Shifted(rxs: seq<Rx>, at: seq<nat>, buf: seq<byte>, total: nat) returns (out: seq<nat>)
    requires total <= |buf| && InOrder(rxs, at, buf[total..])
    ensures InOrder(rxs, out, buf) && forall i :: 0 <= i < |out| ==> out[i] >= total + 4
  {
    out := seq(|at|, i requires 0 <= i < |at| => total + at[i]);
    forall i | 0 <= i < |rxs|
      ensures out[i] + |rxs[i].payload| <= |buf| && buf[out[i]..out[i] + |rxs[i].payload|] == rxs[i].payload
    {
      var n := |rxs[i].payload|;
      assert buf[total..][at[i]..at[i] + n] == buf[out[i]..out[i] + n];
    }
  }

  // ---------------------------------------------------------------- frames in a downlink buffer

  datatype RawItem = RawItem(first: byte, mux: byte, ext: seq<byte>, body: seq<byte>)

  /** Any frame at all: the byte with its flags and pad length, its mux id, the second header if the
      flags announce one, and as many bytes as its length field says. */
  type Item = x: RawItem | |x.ext| == HdrSize(x.first) - 4 && |x.body| < 0x10000
    witness RawItem(0, 0, [], [])

  function ItemBytes(x: Item): seq<byte> {
    [x.first, x.mux, |x.body| / 256, |x.body| % 256] + x.ext + x.body
  }

  /** What is left of the body without its pad and the minimum padding. */
  function Net(x: Item, cfg: RxCfg): int { |x.body| - x.first % 64 - cfg.minPad }

  predicate Command(x: Item) { x.first >= 128 }

  predicate IpVersion(b: byte) { b / 16 == 4 || b / 16 == 6 }

  /** The receiver looks at the byte behind the header, which belongs to `next` when the body is empty. */
  predicate Lead(x: Item, next: seq<byte>) {
    x.body + next != [] && IpVersion((x.body + next)[0])
  }

  predicate InUse(mux: byte, cfg: RxCfg) { MUX_BASE <= mux < MUX_BASE + cfg.qmapMode }

  predicate Registered(mux: byte, cfg: RxCfg) { InUse(mux, cfg) && mux - MUX_BASE in cfg.devs }

  /** A frame that is stepped over: a command, or data for a mux id in use without a device. */
  predicate Ignored(x: Item, next: seq<byte>, cfg: RxCfg) {
    Net(x, cfg) <= MAX_PACKET && (Command(x) || (Lead(x, next) && InUse(x.mux, cfg) && !Registered(x.mux, cfg)))
  }

  /** A data frame whose packet is delivered. */
  predicate Accepted(x: Item, next: seq<byte>, cfg: RxCfg) {
    0 <= Net(x, cfg) <= MAX_PACKET && !Command(x) && Lead(x, next) && Registered(x.mux, cfg)
  }

  /** A data frame on which the C code leaves its arrays: nothing stands behind its header, its mux id
      is below the base, or its body is shorter than its padding. */
  predicate Faulting(x: Item, next: seq<byte>, cfg: RxCfg) {
    && Net(x, cfg) <= MAX_PACKET && !Command(x)
    && (x.body + next == []
        || (Lead(x, next) && (x.mux < MUX_BASE || (Registered(x.mux, cfg) && Net(x, cfg) < 0))))
  }

  function RxOf(x: Item, next: seq<byte>, cfg: RxCfg): Rx
    requires Accepted(x, next, cfg)
  {
    Rx(x.mux - MUX_BASE, if (x.body + next)[0] / 16 == 4 then IPv4 else IPv6, x.body[..Net(x, cfg)])
  }

  lemma ItemHeader(x: Item, next: seq<byte>)
    ensures var buf := ItemBytes(x) + next; var hdr := 4 + |x.ext|;
            && buf[0] == x.first && buf[1] == x.mux && Be16(buf[2], buf[3]) == |x.body| && HdrSize(x.first) == hdr
            && |ItemBytes(x)| == hdr + |x.body| && buf[hdr..] == x.body + next && buf[|ItemBytes(x)|..] == next
  {
  }

  lemma BehindHeader(buf: seq<byte>, hdr: nat, body: seq<byte>, next: seq<byte>, n: nat)
    requires hdr <= |buf| && buf[hdr..] == body + next && n <= |body|
    ensures buf[hdr..hdr + n] == body[..n]
    ensures |buf| > hdr ==> buf[hdr] == (body + next)[0]
  {
    assert buf[hdr..hdr + n] == buf[hdr..][..n];
    assert (body + next)[..n] == body[..n];
  }

  /** One pass of the loop over a whole frame. */
  lemma ClassifyItem(x: Item, next: seq<byte>, cfg: RxCfg)
    requires |ItemBytes(x) + next| > 4
    ensures Classify(ItemBytes(x) + next, cfg)
         == if Ignored(x, next, cfg) then Skip(|ItemBytes(x)|)
            else if Accepted(x, next, cfg) then Deliver(|ItemBytes(x)|, RxOf(x, next, cfg))
            else if Faulting(x, next, cfg) then Fault
            else Reject
  {
    ItemHeader(x, next);
    var buf := ItemBytes(x) + next;
    BehindHeader(buf, 4 + |x.ext|, x.body, next, if 0 <= Net(x, cfg) then Net(x, cfg) else 0);
  }

  function ItemPackets(x: Item, next: seq<byte>, cfg: RxCfg): seq<Rx> {
    if Accepted(x, next, cfg) then [RxOf(x, next, cfg)] else []
  }

  /** A frame that is delivered or stepped over does not disturb what follows it. */
  lemma DeframeItem(x: Item, next: seq<byte>, cfg: RxCfg)
    requires Ignored(x, next, cfg) || Accepted(x, next, cfg)
    ensures var w := Deframe(next, cfg);
            Deframe(ItemBytes(x) + next, cfg) == Walk(ItemPackets(x, next, cfg) + w.delivered, w.fault)
  {
    ItemHeader(x, next);
    assert [] + Deframe(next, cfg).delivered == Deframe(next, cfg).delivered;
    if |ItemBytes(x) + next| > 4 {
      ClassifyItem(x, next, cfg);
    }
  }

  /** A frame cut short at the end of a buffer, whatever its header says, yields nothing at all: no
      partial packet is delivered, and nothing goes wrong. */
  lemma DeframeTruncated(x: Item, k: nat, cfg: RxCfg)
    requires k < |ItemBytes(x)|
    ensures Deframe(ItemBytes(x)[..k], cfg) == Walk([], false)
  {
    ItemHeader(x, []);
    var buf := ItemBytes(x)[..k];
    if k > 4 {
      assert buf[0] == x.first && Be16(buf[2], buf[3]) == |x.body|;
      assert Classify(buf, cfg) == Reject;
    }
  }

  function Stream(xs: seq<Item>, rest: seq<byte>): seq<byte> {
    if xs == [] then rest else ItemBytes(xs[0]) + Stream(xs[1..], rest)
  }

  /** Frames none of which stops the receiver. */
  predicate Regular(xs: seq<Item>, rest: seq<byte>, cfg: RxCfg) {
    xs == [] || (var next := Stream(xs[1..], rest);
                 (Ignored(xs[0], next, cfg) || Accepted(xs[0], next, cfg)) && Regular(xs[1..], rest, cfg))
  }

  /** The packets of the frames that are accepted, in order. */
  function Packets(xs: seq<Item>, rest: seq<byte>, cfg: RxCfg): seq<Rx> {
    if xs == [] then [] else ItemPackets(xs[0], Stream(xs[1..], rest), cfg) + Packets(xs[1..], rest, cfg)
  }

  /** Too few bytes for the frame they begin with. */
  predicate Short(rest: seq<byte>) {
    |rest| <= 4 || |rest| < Be16(rest[2], rest[3]) + HdrSize(rest[0])
  }

  /** The whole frame a buffer begins with, and what is behind it. */
  function FirstItem(buf: seq<byte>): (r: (Item, seq<byte>))
    requires !Short(buf)
    ensures buf == ItemBytes(r.0) + r.1
  {
    var hdr := HdrSize(buf[0]);
    var total := hdr + Be16(buf[2], buf[3]);
    Be16Parts(buf[2], buf[3]);
    CutInFour(buf, 4, hdr, total);
    var x: Item := RawItem(buf[0], buf[1], buf[4..hdr], buf[hdr..total]);
    (x, buf[total..])
  }

  lemma Be16Parts(hi: byte, lo: byte)
    ensures Be16(hi, lo) < 0x10000 && Be16(hi, lo) / 256 == hi && Be16(hi, lo) % 256 == lo
  {
  }

  lemma CutInFour(s: seq<byte>, i: nat, j: nat, k: nat)
    requires 4 == i <= j <= k <= |s|
    ensures s == [s[0], s[1], s[2], s[3]] + s[i..j] + s[j..k] + s[k..]
  {
    assert [s[0], s[1], s[2], s[3]] == s[..i];
  }

  /** The receiver stops here: too little is left, or the next frame is neither delivered nor ignored. */
  predicate Stops(rest: seq<byte>, cfg: RxCfg) {
    Short(rest) || (var (x, next) := FirstItem(rest); !Ignored(x, next, cfg) && !Accepted(x, next, cfg))
  }

  /** And it stops by a fault. */
  predicate FaultsAt(rest: seq<byte>, cfg: RxCfg) {
    !Short(rest) && var (x, next) := FirstItem(rest); Faulting(x, next, cfg)
  }

  lemma DeframeStops(rest: seq<byte>, cfg: RxCfg)
    requires Stops(rest, cfg)
    ensures Deframe(rest, cfg) == Walk([], FaultsAt(rest, cfg))
  {
    if Short(rest) {
      assert |rest| > 4 ==> Classify(rest, cfg) == Reject;
    } else {
      var (x, next) := FirstItem(rest);
      ClassifyItem(x, next, cfg);
    }
  }

  /** From any mixture of frames up to the place where the receiver stops it delivers exactly the
      packets of the accepted frames, in order, and nothing from what follows; it ends in a fault
      exactly when the frame that stops it is a faulting one. */
  lemma {:induction false} DeframeUpToRejected(xs: seq<Item>, rest: seq<byte>, cfg: RxCfg)
    requires Regular(xs, rest, cfg) && Stops(rest, cfg)
    ensures Deframe(Stream(xs, rest), cfg) == Walk(Packets(xs, rest, cfg), FaultsAt(rest, cfg))
  {
    if xs == [] {
      DeframeStops(rest, cfg);
    } else {
      DeframeUpToRejected(xs[1..], rest, cfg);
      DeframeItem(xs[0], Stream(xs[1..], rest), cfg);
    }
  }

  /** And every buffer is such a mixture. */
  lemma {:induction false} EveryBuffer(buf: seq<byte>, cfg: RxCfg) returns (xs: seq<Item>, rest: seq<byte>)
    ensures buf == Stream(xs, rest) && Regular(xs, rest, cfg) && Stops(rest, cfg)
    ensures Deframe(buf, cfg) == Walk(Packets(xs, rest, cfg), FaultsAt(rest, cfg))
    decreases |buf|
  {
    if Stops(buf, cfg) {
      xs, rest := [], buf;
    } else {
      var (x, next) := FirstItem(buf);
      var ys;
      ys, rest := EveryBuffer(next, cfg);
      xs := [x] + ys;
      assert xs[1..] == ys;
    }
    DeframeUpToRejected(xs, rest, cfg);
  }

  /** The handler leaves its arrays on a buffer exactly when, behind frames that are delivered or
      stepped over, a faulting one stands whole. */
  lemma FaultExactly(buf: seq<byte>, cfg: RxCfg)
    ensures Deframe(buf, cfg).fault
            <==> exists xs, rest :: buf == Stream(xs, rest) && Regular(xs, rest, cfg) && FaultsAt(rest, cfg)
  {
    var ys, end := EveryBuffer(buf, cfg);
    forall xs, rest | buf == Stream(xs, rest) && Regular(xs, rest, cfg) && FaultsAt(rest, cfg)
      ensures Deframe(buf, cfg).fault
    {
      DeframeUpToRejected(xs, rest, cfg);
    }
    if FaultsAt(end, cfg) {
      assert buf == Stream(ys, end);
    }
  }

  /** One buffer for each way to fault: a mux id below the base, a pad longer than the body, and a
      second header with nothing behind it. */
  lemma FaultsHappen()
    ensures var cfg := RxCfg(1, {0}, 0);
            && Deframe([0, 0x80, 0, 1, 0x45], cfg).fault && Deframe([2, 0x81, 0, 1, 0x45], cfg).fault
            && Deframe([0x40, 0x81, 0, 0, 4, 0, 0, 0], cfg).fault
  {
    var cfg := RxCfg(1, {0}, 0);
    assert Classify([0, 0x80, 0, 1, 0x45], cfg) == Fault;
    assert Classify([2, 0x81, 0, 1, 0x45], cfg) == Fault;
    assert Classify([0x40, 0x81, 0, 0, 4, 0, 0, 0], cfg) == Fault;
  }

  // ---------------------------------------------------------------- frames as the sender makes them

  /** A packet the receiver takes: nonempty, at most 1500 bytes, an IP version nibble of 4 or 6, and a
      registered mux id. */
  predicate Deliverable(mux: byte, pkt: seq<byte>, cfg: RxCfg) {
    1 <= |pkt| <= 1500 && IpVersion(pkt[0]) && Registered(mux, cfg)
  }

  /** A packet that survives the uplink's framing, which adds no minimum padding. */
  predicate Carried(mux: byte, pkt: seq<byte>, cfg: RxCfg) { Deliverable(mux, pkt, cfg) && cfg.minPad == 0 }

  function AsRx(mux: byte, pkt: seq<byte>): Rx
    requires |pkt| > 0 && mux >= MUX_BASE
  {
    Rx(mux - MUX_BASE, if pkt[0] / 16 == 4 then IPv4 else IPv6, pkt)
  }

  /** What the receiver reads back from a header, as long as the length fits its field: no command, and in
      version 5 another header behind it, of type 2 and the last one, which asks for nothing else. */
  lemma HeaderFields(v: Version, mux: byte, len: nat, pad: nat)
    requires pad < 64 && len + pad < 0x10000
    ensures var h := Header(v, mux, len, pad);
            && |h| == (if v == V1 then 4 else 8) && HdrSize(h[0]) == |h|
            && h[0] % 64 == pad && h[0] < 128 && h[1] == mux && Be16(h[2], h[3]) == len + pad
            && (v == V5 ==> h[4] / 2 == 2 && h[4] % 2 == 0 && h[5..] == [0, 0, 0])
  {
  }

  /** A frame as the header functions build it, taken as a frame of the receiver's. */
  function AsItem(v: Version, mux: byte, pkt: seq<byte>, pad: seq<byte>): (x: Item)
    requires |pad| < 64 && |pkt| + |pad| < 0x10000
    ensures ItemBytes(x) == Frame(v, mux, pkt, pad) && x.mux == mux && x.body == pkt + pad
    ensures x.first % 64 == |pad| && !Command(x)
  {
    HeaderFields(v, mux, |pkt|, |pad|);
    match v
    case V1 => RawItem(|pad|, mux, [], pkt + pad)
    case V5 => RawItem(64 + |pad|, mux, [2 * CSUM_OFFLOAD, 0, 0, 0], pkt + pad)
  }

  /** A framed packet in front of anything else is delivered as it was, without its padding and the
      fill bytes the modem has announced, and the rest of the buffer is treated as if it stood alone. */
  lemma DeframeFrame(v: Version, mux: byte, pkt: seq<byte>, fill: seq<byte>, pad: seq<byte>, rest: seq<byte>, cfg: RxCfg)
    requires |pad| < 64 && |fill| == cfg.minPad && |pkt| + |fill| + |pad| < 0x10000 && Deliverable(mux, pkt, cfg)
    ensures var w := Deframe(rest, cfg);
            Deframe(Frame(v, mux, pkt + fill, pad) + rest, cfg) == Walk([AsRx(mux, pkt)] + w.delivered, w.fault)
  {
    var x := AsItem(v, mux, pkt + fill, pad);
    PacketTaken(x, pkt, fill, pad, rest, cfg);
    DeframeItem(x, rest, cfg);
  }

  lemma PacketTaken(x: Item, pkt: seq<byte>, fill: seq<byte>, pad: seq<byte>, next: seq<byte>, cfg: RxCfg)
    requires x.body == pkt + fill + pad && x.first % 64 == |pad| && !Command(x)
    requires |fill| == cfg.minPad && Deliverable(x.mux, pkt, cfg)
    ensures Accepted(x, next, cfg) && RxOf(x, next, cfg) == AsRx(x.mux, pkt)
  {
    assert x.body[..|pkt|] == pkt;
    assert (x.body + next)[0] == pkt[0];
  }

  /** A single framed packet comes back exactly when it is carried: every other packet, mux id or
      setting makes the receiver drop, cut or reject it. */
  lemma RoundTripExact(v: Version, mux: byte, pkt: seq<byte>, pad: seq<byte>, cfg: RxCfg)
    requires |pad| < 64
    ensures Carried(mux, pkt, cfg) <==>
            |pkt| > 0 && mux >= MUX_BASE && Deframe(Frame(v, mux, pkt, pad), cfg) == Walk([AsRx(mux, pkt)], false)
  {
    if Carried(mux, pkt, cfg) {
      DeframeFrame(v, mux, pkt, [], pad, [], cfg);
      assert Frame(v, mux, pkt + [], pad) + [] == Frame(v, mux, pkt, pad) by {
        assert pkt + [] == pkt;
      }
    } else if 1 <= |pkt| <= MAX_PACKET && mux >= MUX_BASE {
      NotCarried(v, mux, pkt, pad, cfg);
    } else if |pkt| > MAX_PACKET && mux >= MUX_BASE {
      var _ := DeframeSlices(Frame(v, mux, pkt, pad), cfg);
      assert AsRx(mux, pkt).payload == pkt;
      assert AsRx(mux, pkt) !in Deframe(Frame(v, mux, pkt, pad), cfg).delivered;
      assert AsRx(mux, pkt) in [AsRx(mux, pkt)];
    }
  }

  lemma NotCarried(v: Version, mux: byte, pkt: seq<byte>, pad: seq<byte>, cfg: RxCfg)
    requires |pad| < 64 && 1 <= |pkt| <= MAX_PACKET && mux >= MUX_BASE && !Carried(mux, pkt, cfg)
    ensures Deframe(Frame(v, mux, pkt, pad), cfg) != Walk([AsRx(mux, pkt)], false)
  {
    var x := AsItem(v, mux, pkt, pad);
    assert ItemBytes(x) + [] == ItemBytes(x);
    assert (x.body + [])[0] == pkt[0];
    if Ignored(x, [], cfg) || Accepted(x, [], cfg) {
      DeframeItem(x, [], cfg);
      assert ItemPackets(x, [], cfg) + [] == ItemPackets(x, [], cfg);
      if Accepted(x, [], cfg) {
        assert |RxOf(x, [], cfg).payload| == |pkt| - cfg.minPad;
      }
    } else {
      ItemHeader(x, []);
      ClassifyItem(x, [], cfg);
    }
  }
}
