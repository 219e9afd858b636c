/** QMI messages as bytes: how the manager builds its start-network request, and the two lookups of a
    TLV, the manager's that walks a pointer and the driver's that copies the value out. */
module QmiTlv {
  import opened Common

  const BUFSIZE := 256
  const QMI_HDR := 6
  const MUX_HDR := 3
  const MSG_HDR := 4
  const TLV_BASE := QMI_HDR + MUX_HDR + MSG_HDR
  const BY_INDEX := 0x1000

  datatype Tlv = Tlv(t: byte, v: seq<byte>)

  function Lo(n: nat): byte { n % 256 }
  function Hi(n: nat): byte { n / 256 % 256 }

  function One(x: Tlv): seq<byte> { [x.t, Lo(|x.v|), Hi(|x.v|)] + x.v }

  function Encode(xs: seq<Tlv>): seq<byte> {
    if xs == [] then [] else One(xs[0]) + Encode(xs[1..])
  }

  lemma {:induction false} EncodeAppend(a: seq<Tlv>, b: seq<Tlv>)
    ensures Encode(a + b) == Encode(a) + Encode(b)
  {
    if a == [] {
      assert a + b == b;
    } else {
      assert (a + b)[1..] == a[1..] + b;
      EncodeAppend(a[1..], b);
      assert One(a[0]) + (Encode(a[1..]) + Encode(b)) == (One(a[0]) + Encode(a[1..])) + Encode(b);
    }
  }

  // ---------------------------------------------------------------- building the request

  /** The user's settings; strings hold no NUL. */
  datatype Profile = Profile(
    apn: Option<seq<byte>>, user: Option<seq<byte>>, password: Option<seq<byte>>,
    auth: byte, ipFamily: byte, index: byte)

  /** The account a CDMA network gets when the user gave none. */
  const CDMA_USER: seq<byte> := [99, 116, 110, 101, 116, 64, 109, 121, 99, 100, 109, 97, 46, 99, 110]
  const CDMA_PASSWORD: seq<byte> := [118, 110, 101, 116, 46, 109, 111, 98, 105]

  predicate Blank(s: Option<seq<byte>>) { s.None? || s.value == [] }

  function Account(p: Profile, cdma: bool): Profile {
    if cdma && Blank(p.user) && Blank(p.password) then
      p.(user := Some(CDMA_USER), password := Some(CDMA_PASSWORD), auth := 2)
    else p
  }

  function Opt(cond: bool, x: Tlv, rest: seq<Tlv>): seq<Tlv> { if cond then [x] + rest else rest }

  function Bytes(s: Option<seq<byte>>): seq<byte> { if s.Some? then s.value else [] }

  /** The request's TLVs from the IP family on, and all of them: technology, APN, user name, password,
      authentication, IP family, profile index. */
  function LastTlvs(p: Profile, cdma: bool): seq<Tlv> {
    [Tlv(0x19, [p.ipFamily])] + Opt(p.index != 0 && !cdma, Tlv(0x31, [p.index]), [])
  }

  function AccountTlvs(user: Option<seq<byte>>, password: Option<seq<byte>>, auth: byte, rest: seq<Tlv>): seq<Tlv> {
    Opt(user.Some?, Tlv(0x17, Bytes(user)),
    Opt(password.Some?, Tlv(0x18, Bytes(password)),
    Opt(user.Some? && password.Some?, Tlv(0x16, [auth]), rest)))
  }

  function FirstTlvs(p: Profile, cdma: bool, rest: seq<Tlv>): seq<Tlv> {
    Opt(true, Tlv(0x30, [if cdma then 2 else 1]), Opt(p.apn.Some? && !cdma, Tlv(0x14, Bytes(p.apn)), rest))
  }

  function ProfileTlvs(a: Profile, cdma: bool): seq<Tlv> {
    FirstTlvs(a, cdma, AccountTlvs(a.user, a.password, a.auth, LastTlvs(a, cdma)))
  }

  function StartTlvs(p: Profile, cdma: bool): seq<Tlv> { ProfileTlvs(Account(p, cdma), cdma) }

  function Message(qmiType: byte, tid: nat, msgType: nat, tlvs: seq<Tlv>): seq<byte> {
    var n := |Encode(tlvs)|;
    [1, Lo(n + TLV_BASE - 1), Hi(n + TLV_BASE - 1), 0, qmiType, 0]
    + [0, Lo(tid), Hi(tid)]
    + [Lo(msgType), Hi(msgType), Lo(n), Hi(n)]
    + Encode(tlvs)
  }

  /** qstrcpy: the bytes of a string and the NUL that ends it. */
  method Qstrcpy(buf: array<byte>, at: nat, from: seq<byte>)
    requires at + |from| < buf.Length
    modifies buf
    ensures buf[..at] == old(buf[..at]) && buf[at..at + |from|] == from && buf[at + |from|] == 0
  {
    var i := 0;
    while i < |from|
      invariant i <= |from| && buf[..at] == old(buf[..at]) && buf[at..at + i] == from[..i]
    {
      buf[at + i] := from[i];
      i := i + 1;
    }
    buf[at + i] := 0;
    assert buf[at..at + |from|] == from[..|from|];
  }

  /** One TLV at `at`; a string value is copied together with its NUL, one byte past the TLV. */
  method PutTlv(buf: array<byte>, at: nat, x: Tlv, str: bool) returns (next: nat)
    requires at + |One(x)| + (if str then 1 else 0) <= buf.Length
    modifies buf
    ensures next == at + |One(x)| && buf[..at] == old(buf[..at]) && buf[at..next] == One(x)
  {
    PutTlvHeader(buf, at, x);
    ghost var head := buf[..at + 3];
    next := at + 3 + |x.v|;
    if str {
      Qstrcpy(buf, at + 3, x.v);
    } else {
      forall i | 0 <= i < |x.v| {
        buf[at + 3 + i] := x.v[i];
      }
      assert buf[at + 3..next] == x.v;
    }
    assert buf[..at + 3] == head;
    HeadThenValue(buf[..], head, at, next);
  }

  lemma HeadThenValue(buf: seq<byte>, head: seq<byte>, at: nat, next: nat)
    requires at <= |head| <= next <= |buf| && buf[..|head|] == head
    ensures buf[..at] == head[..at] && buf[at..next] == head[at..] + buf[|head|..next]
  {
  }

  method PutTlvHeader(buf: array<byte>, at: nat, x: Tlv)
    requires at + 3 <= buf.Length
    modifies buf
    ensures buf[..at] == old(buf[..at]) && buf[..at + 3][at..] == [x.t, Lo(|x.v|), Hi(|x.v|)]
    ensures buf[..at + 3][..at] == old(buf[..at])
  {
    buf[at] := x.t;
    buf[at + 1] := Lo(|x.v|);
    buf[at + 2] := Hi(|x.v|);
  }

  /** The TLV area of the request buffer: `len` bytes of it are in use and encode `done`. */
  class Builder {
    const buf: array<byte>
    var len: nat
    ghost var done: seq<Tlv>

    ghost predicate Valid()
      reads this, buf
    {
      && buf.Length == BUFSIZE && TLV_BASE + len <= BUFSIZE
      && len == |Encode(done)| && buf[TLV_BASE..TLV_BASE + len] == Encode(done)
    }

    /** What is still to be added fits as well. */
    ghost predicate FitsWith(todo: seq<Tlv>)
      reads this
    {
      TLV_BASE + |Encode(done + todo)| <= BUFSIZE
    }

    constructor ()
      ensures Valid() && done == [] && fresh(buf) && forall i :: 0 <= i < BUFSIZE ==> buf[i] == 0
    {
      buf := new byte[BUFSIZE](_ => 0);
      len, done := 0, [];
    }

    /** Writes the next TLV; a string needs one after it, to overwrite its NUL. */
    method Add(x: Tlv, str: bool, ghost rest: seq<Tlv>)
      requires Valid() && FitsWith([x] + rest) && (str ==> rest != [])
      modifies this`len, this`done, buf
      ensures Valid() && done == old(done) + [x] && FitsWith(rest) && done + rest == old(done) + ([x] + rest)
      ensures buf[..TLV_BASE] == old(buf[..TLV_BASE])
    {
      Room(done, x, rest);
      ghost var used := buf[..TLV_BASE + len];
      AreaGrows(buf[..], used, TLV_BASE + len);
      var next := PutTlv(buf, TLV_BASE + len, x, str);
      AreaGrows(buf[..], used, next);
      len := next - TLV_BASE;
      done := done + [x];
    }

    /** WdsStartNwInterfaceReq, for every profile whose TLVs fit the buffer. */
    method StartNwInterfaceReq(p: Profile, cdma: bool) returns (size: nat)
      requires Valid() && done == [] && FitsWith(StartTlvs(p, cdma))
      modifies this`len, this`done, buf
      ensures Valid() && done == StartTlvs(p, cdma) && size == MSG_HDR + len
      ensures buf[..TLV_BASE - 2] == old(buf[..TLV_BASE - 2])
    {
      var a := p;
      if cdma && Blank(p.user) && Blank(p.password) {
        a := p.(user := Some(CDMA_USER), password := Some(CDMA_PASSWORD), auth := 2);
      }
      ClearLength();
      ghost var head := buf[..TLV_BASE];
      AddProfile(a, cdma);
      assert buf[..TLV_BASE - 2] == head[..TLV_BASE - 2];
      size := MSG_HDR + len;
    }

    method AddProfile(a: Profile, cdma: bool)
      requires Valid() && done == [] && FitsWith(ProfileTlvs(a, cdma))
      modifies this`len, this`done, buf
      ensures Valid() && done == ProfileTlvs(a, cdma) && buf[..TLV_BASE] == old(buf[..TLV_BASE])
    {
      ghost var last := LastTlvs(a, cdma);
      ghost var rest := AccountTlvs(a.user, a.password, a.auth, last);
      assert [] + ProfileTlvs(a, cdma) == ProfileTlvs(a, cdma);
      AddFirst(a, cdma, rest);
      AddAccount(a.user, a.password, a.auth, last);
      AddLast(a, cdma);
    }

    method AddFirst(p: Profile, cdma: bool, ghost rest: seq<Tlv>)
      requires Valid() && done == [] && rest != [] && FitsWith(FirstTlvs(p, cdma, rest))
      modifies this`len, this`done, buf
      ensures Valid() && FitsWith(rest) && done + rest == FirstTlvs(p, cdma, rest)
      ensures buf[..TLV_BASE] == old(buf[..TLV_BASE])
    {
      ghost var x := Tlv(0x30, [if cdma then 2 else 1]);
      ghost var t1 := Opt(p.apn.Some? && !cdma, Tlv(0x14, Bytes(p.apn)), rest);
      assert [] + ([x] + t1) == FirstTlvs(p, cdma, rest);
      Add(Tlv(0x30, [if cdma then 2 else 1]), false, t1);
      if p.apn.Some? && !cdma {
        Add(Tlv(0x14, p.apn.value), true, rest);
      }
    }

    method ClearLength()
      requires Valid() && len == 0
      modifies buf
      ensures Valid() && buf[..TLV_BASE - 2] == old(buf[..TLV_BASE - 2])
    {
      buf[TLV_BASE - 2] := 0;
      buf[TLV_BASE - 1] := 0;
      assert buf[TLV_BASE..TLV_BASE + len] == [];
    }

    method AddAccount(user: Option<seq<byte>>, password: Option<seq<byte>>, auth: byte, ghost rest: seq<Tlv>)
      requires Valid() && rest != [] && FitsWith(AccountTlvs(user, password, auth, rest))
      modifies this`len, this`done, buf
      ensures Valid() && FitsWith(rest) && done + rest == old(done) + AccountTlvs(user, password, auth, rest)
      ensures buf[..TLV_BASE] == old(buf[..TLV_BASE])
    {
      ghost var t4 := Opt(user.Some? && password.Some?, Tlv(0x16, [auth]), rest);
      ghost var t3 := Opt(password.Some?, Tlv(0x18, Bytes(password)), t4);
      if user.Some? {
        Add(Tlv(0x17, user.value), true, t3);
      }
      if password.Some? {
        Add(Tlv(0x18, password.value), true, t4);
      }
      if user.Some? && password.Some? {
        Add(Tlv(0x16, [auth]), false, rest);
      }
    }

    method AddLast(p: Profile, cdma: bool)
      requires Valid() && FitsWith(LastTlvs(p, cdma))
      modifies this`len, this`done, buf
      ensures Valid() && done == old(done) + LastTlvs(p, cdma) && buf[..TLV_BASE] == old(buf[..TLV_BASE])
    {
      Add(Tlv(0x19, [p.ipFamily]), false, Opt(p.index != 0 && !cdma, Tlv(0x31, [p.index]), []));
      if p.index != 0 && !cdma {
        assert [Tlv(0x31, [p.index])] + [] == [Tlv(0x31, [p.index])];
        Add(Tlv(0x31, [p.index]), false, []);
      }
    }
  }

  /** The TLV area of a buffer that starts with `used`. */
  lemma AreaGrows(buf: seq<byte>, used: seq<byte>, next: nat)
    requires TLV_BASE <= |used| <= next <= |buf| && buf[..|used|] == used
    ensures buf[..TLV_BASE] == used[..TLV_BASE]
    ensures buf[TLV_BASE..next] == used[TLV_BASE..] + buf[|used|..next]
  {
  }

  lemma Room(done: seq<Tlv>, x: Tlv, rest: seq<Tlv>)
    ensures |Encode(done + ([x] + rest))| == |Encode(done)| + |One(x)| + |Encode(rest)|
    ensures Encode(done + [x]) == Encode(done) + One(x)
    ensures (done + [x]) + rest == done + ([x] + rest)
    ensures rest != [] ==> |Encode(rest)| > 0
  {
    EncodeAppend(done, [x] + rest);
    assert ([x] + rest)[1..] == rest;
    EncodeAppend(done, [x]);
    assert Encode([x]) == One(x) + [];
    assert (done + [x]) + rest == done + ([x] + rest);
  }

  /** The headers of a message whose TLVs take `n` bytes. */
  function MessageHeader(qmiType: byte, tid: nat, msgType: nat, n: nat): (h: seq<byte>)
    ensures |h| == TLV_BASE
  {
    [1, Lo(n + TLV_BASE - 1), Hi(n + TLV_BASE - 1), 0, qmiType, 0, 0, Lo(tid), Hi(tid), Lo(msgType), Hi(msgType), Lo(n), Hi(n)]
  }

  lemma MessageParts(qmiType: byte, tid: nat, msgType: nat, tlvs: seq<Tlv>)
    ensures Message(qmiType, tid, msgType, tlvs) == MessageHeader(qmiType, tid, msgType, |Encode(tlvs)|) + Encode(tlvs)
  {
  }

  /** ComposeQMUXMsg around the request's TLVs: both length fields are the byte counts of what follows
      them, and the message is exactly its headers and its TLVs. */
  method Compose(qmiType: byte, tid: nat, msgType: nat, p: Profile, cdma: bool) returns (msg: seq<byte>)
    requires TLV_BASE + |Encode(StartTlvs(p, cdma))| <= BUFSIZE
    ensures msg == Message(qmiType, tid, msgType, StartTlvs(p, cdma))
  {
    var b := new Builder();
    assert [] + StartTlvs(p, cdma) == StartTlvs(p, cdma);
    PutHeader(b, qmiType, tid, msgType);
    ghost var head := b.buf[..TLV_BASE - 2];
    var size := b.StartNwInterfaceReq(p, cdma);
    assert b.buf[..TLV_BASE - 2] == head;
    msg := Finish(b, size, qmiType, tid, msgType);
    MessageParts(qmiType, tid, msgType, StartTlvs(p, cdma));
  }

  ghost predicate HeaderReady(head: seq<byte>, qmiType: byte, tid: nat, msgType: nat) {
    && |head| == TLV_BASE - 2 && head[0] == 1 && head[3] == 0 && head[4] == qmiType && head[5] == 0 && head[6] == 0
    && head[7] == Lo(tid) && head[8] == Hi(tid) && head[9] == Lo(msgType) && head[10] == Hi(msgType)
  }

  method PutHeader(b: Builder, qmiType: byte, tid: nat, msgType: nat)
    requires b.Valid() && b.done == [] && forall i :: 0 <= i < BUFSIZE ==> b.buf[i] == 0
    modifies b.buf
    ensures b.Valid() && HeaderReady(b.buf[..TLV_BASE - 2], qmiType, tid, msgType)
  {
    var buf := b.buf;
    buf[0], buf[3], buf[4], buf[6] := 1, 0, qmiType, 0;
    buf[7], buf[8], buf[9], buf[10] := Lo(tid), Hi(tid), Lo(msgType), Hi(msgType);
    assert buf[TLV_BASE..TLV_BASE + b.len] == [];
  }

  lemma HeaderIs(head: seq<byte>, qmiType: byte, tid: nat, msgType: nat, n: nat)
    requires |head| == TLV_BASE && head[0] == 1 && head[3] == 0 && head[4] == qmiType && head[5] == 0 && head[6] == 0
    requires head[7] == Lo(tid) && head[8] == Hi(tid) && head[9] == Lo(msgType) && head[10] == Hi(msgType)
    requires head[1] == Lo(n + TLV_BASE - 1) && head[2] == Hi(n + TLV_BASE - 1) && head[11] == Lo(n) && head[12] == Hi(n)
    ensures head == MessageHeader(qmiType, tid, msgType, n)
  {
  }

  /** The two length fields. */
  method PutLengths(b: Builder, n: nat, qmiType: byte, tid: nat, msgType: nat)
    requires b.Valid() && HeaderReady(b.buf[..TLV_BASE - 2], qmiType, tid, msgType)
    modifies b.buf
    ensures b.buf[..TLV_BASE] == MessageHeader(qmiType, tid, msgType, n)
    ensures b.buf[TLV_BASE..TLV_BASE + b.len] == Encode(b.done)
  {
    var buf := b.buf;
    ghost var head, area := buf[..TLV_BASE - 2], buf[TLV_BASE..TLV_BASE + b.len];
    assert forall i :: 0 <= i < |head| ==> buf[i] == head[i];
    buf[11], buf[12] := Lo(n), Hi(n);
    var length := n + MSG_HDR + MUX_HDR + QMI_HDR - 1;
    buf[1], buf[2] := Lo(length), Hi(length);
    HeaderIs(buf[..TLV_BASE], qmiType, tid, msgType, n);
    assert buf[TLV_BASE..TLV_BASE + b.len] == area;
  }

  /** The length fields, and the copy of exactly the message. */
  method Finish(b: Builder, size: nat, qmiType: byte, tid: nat, msgType: nat) returns (msg: seq<byte>)
    requires b.Valid() && size == MSG_HDR + b.len && HeaderReady(b.buf[..TLV_BASE - 2], qmiType, tid, msgType)
    modifies b.buf
    ensures msg == MessageHeader(qmiType, tid, msgType, |Encode(b.done)|) + Encode(b.done)
  {
    var n := size - MSG_HDR;
    PutLengths(b, n, qmiType, tid, msgType);
    msg := b.buf[..TLV_BASE + n];
    assert msg == b.buf[..TLV_BASE] + b.buf[TLV_BASE..TLV_BASE + n];
  }

  // ---------------------------------------------------------------- lookup

  /** The first TLV of type `t`, or the number of TLVs. */
  function FirstOf(xs: seq<Tlv>, t: int): (k: nat)
    ensures k <= |xs| && (k < |xs| ==> xs[k].t == t)
    ensures forall j :: 0 <= j < k ==> xs[j].t != t
  {
    if xs == [] || xs[0].t == t then 0 else 1 + FirstOf(xs[1..], t)
  }

  /** Which TLV a lookup means: the n-th one for 0x1000 + n, else the first of the type. */
  function Pick(xs: seq<Tlv>, want: int): nat {
    if want > BY_INDEX then (if want - BY_INDEX - 1 < |xs| then want - BY_INDEX - 1 else |xs|) else FirstOf(xs, want)
  }

  /** A TLV's place, its absence, or a walk that has left the message, which only ill-formed length
      fields can cause. */
  datatype Found = At(pos: nat) | Missing | Overrun

  lemma EncodeSplit(xs: seq<Tlv>, k: nat)
    requires k < |xs|
    ensures Encode(xs) == Encode(xs[..k]) + Encode(xs[k..])
    ensures Encode(xs[k..]) == One(xs[k]) + Encode(xs[k + 1..])
  {
    assert xs == xs[..k] + xs[k..];
    EncodeAppend(xs[..k], xs[k..]);
    assert xs[k..][1..] == xs[k + 1..];
  }

  lemma EncodeNext(xs: seq<Tlv>, k: nat)
    requires k < |xs|
    ensures Encode(xs[..k + 1]) == Encode(xs[..k]) + One(xs[k])
  {
    assert xs[..k + 1] == xs[..k] + [xs[k]];
    EncodeAppend(xs[..k], [xs[k]]);
    assert Encode([xs[k]]) == One(xs[k]) + [];
  }

  lemma Middle(a: seq<byte>, x: Tlv, b: seq<byte>)
    requires |x.v| < 0x10000
    ensures var s := a + (One(x) + b); var at := |a|;
            && s[at] == x.t && Le16(s[at + 1], s[at + 2]) == |x.v| && s[at + 3..at + 3 + |x.v|] == x.v
  {
    var s := a + (One(x) + b);
    assert s[|a|] == One(x)[0] && s[|a| + 1] == One(x)[1] && s[|a| + 2] == One(x)[2];
  }

  /** The bytes at TLV `k`'s place are its type, its length and then its value. */
  lemma TlvBytes(xs: seq<Tlv>, k: nat)
    requires k < |xs| && |Encode(xs)| < 0x10000
    ensures var at, area := |Encode(xs[..k])|, Encode(xs);
            && at + 3 + |xs[k].v| <= |area| && area[at] == xs[k].t && Le16(area[at + 1], area[at + 2]) == |xs[k].v|
            && area[at + 3..at + 3 + |xs[k].v|] == xs[k].v
            && |Encode(xs[..k + 1])| == at + 3 + |xs[k].v|
            && (k == |xs| - 1 ==> at + 3 + |xs[k].v| == |area|) && (k < |xs| - 1 ==> at + 6 + |xs[k].v| <= |area|)
  {
    var a, b := Encode(xs[..k]), Encode(xs[k + 1..]);
    EncodeSplit(xs, k);
    EncodeNext(xs, k);
    assert Encode(xs) == a + (One(xs[k]) + b);
    Middle(a, xs[k], b);
    Later(xs, k);
  }

  lemma Later(xs: seq<Tlv>, k: nat)
    requires k < |xs|
    ensures if k == |xs| - 1 then |Encode(xs[k + 1..])| == 0 else |Encode(xs[k + 1..])| >= 3
  {
    if k < |xs| - 1 {
      assert |Encode(xs[k + 1..])| >= |One(xs[k + 1..][0])|;
    }
  }

  /** A walk that has passed the first `k` TLVs of a well-formed area stands at `pos`. */
  ghost predicate Passed(area: seq<byte>, xs: seq<Tlv>, k: nat, pos: nat) {
    area == Encode(xs) && k <= |xs| && pos == |Encode(xs[..k])| <= |area|
  }

  /** What such a walk sees next: the end of the area, or TLV `k` and, after it, the walk's next place. */
  lemma NextSeen(area: seq<byte>, xs: seq<Tlv>, k: nat, pos: nat)
    requires Passed(area, xs, k, pos) && |area| < 0x10000
    ensures k == |xs| ==> pos == |area|
    ensures k < |xs| ==>
              && pos + 3 <= |area| && area[pos] == xs[k].t && Le16(area[pos + 1], area[pos + 2]) == |xs[k].v|
              && pos + 3 + |xs[k].v| <= |area| && area[pos + 3..pos + 3 + |xs[k].v|] == xs[k].v
              && Passed(area, xs, k + 1, pos + 3 + |xs[k].v|)
              && (pos + 3 + |xs[k].v| == |area| <==> k == |xs| - 1)
              && (k < |xs| - 1 ==> pos + 6 + |xs[k].v| <= |area|)
  {
    if k == |xs| {
      assert xs[..k] == xs;
    } else {
      TlvBytes(xs, k);
    }
  }

  /** Where a lookup finds its TLV. */
  function Place(xs: seq<Tlv>, want: int): Found {
    var k := Pick(xs, want);
    if k < |xs| then At(|Encode(xs[..k])|) else Missing
  }

  /** The test the walk makes at TLV `k`, having found none before. */
  lemma PickStep(xs: seq<Tlv>, want: int, k: nat)
    requires k < |xs| && k <= Pick(xs, want)
    ensures Pick(xs, want) == k <==> if want > BY_INDEX then k + 1 + BY_INDEX == want else xs[k].t == want
  {
  }

  /** Subtraction on an unsigned 16-bit variable. */
  function Sub16(a: nat, b: nat): (r: nat)
    ensures r < 0x10000 && (b <= a < 0x10000 ==> r == a - b)
  {
    var d: int := a - b;
    d % 0x10000
  }

  /** The manager's GetTLV over the TLV area of a message whose Length field is `length`. */
  method GetTlv(area: seq<byte>, length: nat, want: int, ghost xs: seq<Tlv>) returns (f: Found)
    requires length < 0x10000
    ensures area == Encode(xs) && length == |area| ==>
              f == Place(xs, want)
  {
    ghost var ok := area == Encode(xs) && length == |area|;
    var pos, len, find := 0, length, 0;
    while len >= 3
      invariant len < 0x10000
      invariant ok ==> Passed(area, xs, find, pos) && len == |area| - pos && find <= Pick(xs, want)
      decreases |area| - pos
    {
      if ok {
        NextSeen(area, xs, find, pos);
        PickStep(xs, want, find);
      }
      if pos + 3 > |area| {
        return Overrun;
      }
      find := find + 1;
      if want > BY_INDEX {
        if find + BY_INDEX == want {
          return At(pos);
        }
      } else if area[pos] == want {
        return At(pos);
      }
      var size := Le16(area[pos + 1], area[pos + 2]);
      len := Sub16(len, size + 3);
      pos := pos + size + 3;
    }
    if ok {
      NextSeen(area, xs, find, pos);
    }
    f := Missing;
  }

  /** What the driver's GetTLV returns; `Wrapped` marks a step of its 16-bit position past 65535. */
  datatype Copy = Copied(value: seq<byte>) | NoMsg | NoMem | OutOfMessage | Wrapped

  /** Its answer on a well-formed message: an empty TLV at the very end goes unseen. */
  function CopyOf(xs: seq<Tlv>, t: byte, bufferLen: nat): Copy {
    var k := FirstOf(xs, t);
    if k == |xs| || (k == |xs| - 1 && xs[k].v == []) then NoMsg
    else if bufferLen < |xs[k].v| then NoMem
    else Copied(xs[k].v)
  }

  method DriverGetTlv(msg: seq<byte>, t: byte, bufferLen: nat, ghost xs: seq<Tlv>) returns (r: Copy)
    requires |msg| < 0x10000
    ensures |msg| >= 4 && msg[4..] == Encode(xs) ==> r == CopyOf(xs, t, bufferLen)
  {
    ghost var ok := |msg| >= 4 && msg[4..] == Encode(xs);
    ghost var k := 0;
    var pos := 4;
    while pos + 3 < |msg|
      invariant pos >= 4 && (ok ==> InMessage(msg, xs, k, pos) && k <= FirstOf(xs, t))
      decreases |msg| - pos
    {
      if ok {
        NextInMessage(msg, xs, k, pos);
      }
      var size := Le16(msg[pos + 1], msg[pos + 2]);
      if msg[pos] == t {
        if bufferLen < size {
          return NoMem;
        }
        if pos + 3 + size > |msg| {
          return OutOfMessage;
        }
        return Copied(msg[pos + 3..pos + 3 + size]);
      }
      if pos + size + 3 >= 0x10000 {
        return Wrapped;
      }
      pos := pos + size + 3;
      k := k + 1;
    }
    if ok {
      NextInMessage(msg, xs, k, pos);
    }
    r := NoMsg;
  }

  ghost predicate InMessage(msg: seq<byte>, xs: seq<Tlv>, k: nat, pos: nat) {
    |msg| >= 4 && pos >= 4 && Passed(msg[4..], xs, k, pos - 4)
  }

  /** What a walk sees next, counted from the start of the message. */
  lemma NextInMessage(msg: seq<byte>, xs: seq<Tlv>, k: nat, pos: nat)
    requires InMessage(msg, xs, k, pos) && |msg| < 0x10000
    ensures k == |xs| ==> pos == |msg|
    ensures k < |xs| ==>
              && pos + 3 <= |msg| && msg[pos] == xs[k].t && Le16(msg[pos + 1], msg[pos + 2]) == |xs[k].v|
              && pos + 3 + |xs[k].v| <= |msg| && msg[pos + 3..pos + 3 + |xs[k].v|] == xs[k].v
              && InMessage(msg, xs, k + 1, pos + 3 + |xs[k].v|)
              && (pos + 3 + |xs[k].v| == |msg| <==> k == |xs| - 1)
              && (k < |xs| - 1 ==> pos + 6 + |xs[k].v| <= |msg|)
  {
    NextSeen(msg[4..], xs, k, pos - 4);
    assert forall i :: 4 <= i < |msg| ==> msg[i] == msg[4..][i - 4];
    if k < |xs| {
      assert msg[4..][pos - 1..pos - 1 + |xs[k].v|] == msg[pos + 3..pos + 3 + |xs[k].v|];
    }
  }

  /** The two lookups agree on a message and a type, the driver refusing what its buffer cannot hold,
      exactly unless the first TLV of that type is the message's last one and empty: the manager finds it,
      the driver does not. */
  lemma LookupsAgreeExactly(xs: seq<Tlv>, t: byte, bufferLen: nat)
    ensures var k := Pick(xs, t);
            CopyOf(xs, t, bufferLen)
            == (if k == |xs| then NoMsg else if |xs[k].v| > bufferLen then NoMem else Copied(xs[k].v))
            <==> !(k < |xs| && k == |xs| - 1 && xs[k].v == [])
  {
  }

  /** The order in which the builder adds the types it uses. */
  function Rank(t: byte): nat {
    match t
    case 0x30 => 1 case 0x14 => 2 case 0x17 => 3 case 0x18 => 4 case 0x16 => 5 case 0x19 => 6 case 0x31 => 7
    case _ => 0
  }

  predicate Rising(xs: seq<Tlv>, from: nat) {
    && (forall i :: 0 <= i < |xs| ==> Rank(xs[i].t) >= from)
    && (forall i, j :: 0 <= i < j < |xs| ==> Rank(xs[i].t) < Rank(xs[j].t))
  }

  lemma OptRising(cond: bool, x: Tlv, rest: seq<Tlv>)
    requires Rising(rest, Rank(x.t) + 1)
    ensures Rising(Opt(cond, x, rest), Rank(x.t))
  {
  }

  lemma StartRising(p: Profile, cdma: bool)
    ensures Rising(StartTlvs(p, cdma), 1)
  {
    var a := Account(p, cdma);
    OptRising(a.index != 0 && !cdma, Tlv(0x31, [a.index]), []);
    OptRising(true, Tlv(0x19, [a.ipFamily]), Opt(a.index != 0 && !cdma, Tlv(0x31, [a.index]), []));
    var last := LastTlvs(a, cdma);
    var account := AccountTlvs(a.user, a.password, a.auth, last);
    AccountRising(a.user, a.password, a.auth, last);
    OptRising(a.apn.Some? && !cdma, Tlv(0x14, Bytes(a.apn)), account);
    OptRising(true, Tlv(0x30, [if cdma then 2 else 1]), Opt(a.apn.Some? && !cdma, Tlv(0x14, Bytes(a.apn)), account));
  }

  lemma AccountRising(user: Option<seq<byte>>, password: Option<seq<byte>>, auth: byte, rest: seq<Tlv>)
    requires Rising(rest, Rank(0x19))
    ensures Rising(AccountTlvs(user, password, auth, rest), Rank(0x17))
  {
    OptRising(user.Some? && password.Some?, Tlv(0x16, [auth]), rest);
    var t4 := Opt(user.Some? && password.Some?, Tlv(0x16, [auth]), rest);
    OptRising(password.Some?, Tlv(0x18, Bytes(password)), t4);
    OptRising(user.Some?, Tlv(0x17, Bytes(user)), Opt(password.Some?, Tlv(0x18, Bytes(password)), t4));
  }

  /** In the start-network request every TLV is found by its own type, and the n-th by 0x1000 + n. */
  lemma StartTlvsFound(p: Profile, cdma: bool, k: nat)
    requires k < |StartTlvs(p, cdma)|
    ensures Pick(StartTlvs(p, cdma), StartTlvs(p, cdma)[k].t) == k
    ensures Pick(StartTlvs(p, cdma), BY_INDEX + k + 1) == k
    ensures Pick(StartTlvs(p, cdma), BY_INDEX + |StartTlvs(p, cdma)| + 1) == |StartTlvs(p, cdma)|
  {
    StartRising(p, cdma);
    var xs := StartTlvs(p, cdma);
    assert Rank(xs[k].t) >= 1;
  }

  /** The value a lookup by type gives. */
  function ValueOf(xs: seq<Tlv>, t: byte): Option<seq<byte>> {
    var k := FirstOf(xs, t);
    if k < |xs| then Some(xs[k].v) else None
  }

  lemma ValueOfOpt(cond: bool, x: Tlv, rest: seq<Tlv>, t: byte)
    ensures ValueOf(Opt(cond, x, rest), t) == if cond && x.t == t then Some(x.v) else ValueOf(rest, t)
  {
    if cond {
      assert ([x] + rest)[1..] == rest;
    }
  }

  /** What the request says under each type: a setting that is absent, or does not apply to a CDMA
      network, is not there. */
  function Setting(p: Profile, cdma: bool, t: int): Option<seq<byte>> {
    var a := Account(p, cdma);
    match t
    case 0x30 => Some([if cdma then 2 else 1])
    case 0x14 => if cdma then None else p.apn
    case 0x17 => a.user
    case 0x18 => a.password
    case 0x16 => if a.user.Some? && a.password.Some? then Some([a.auth]) else None
    case 0x19 => Some([p.ipFamily])
    case 0x31 => if p.index != 0 && !cdma then Some([p.index]) else None
    case _ => None
  }

  /** The request carries the profile's settings: each can be read back by its type. */
  lemma StartCarriesProfile(p: Profile, cdma: bool, t: byte)
    ensures ValueOf(StartTlvs(p, cdma), t) == Setting(p, cdma, t)
  {
    var a := Account(p, cdma);
    var idx := Opt(a.index != 0 && !cdma, Tlv(0x31, [a.index]), []);
    var last := LastTlvs(a, cdma);
    var t4 := Opt(a.user.Some? && a.password.Some?, Tlv(0x16, [a.auth]), last);
    var t3 := Opt(a.password.Some?, Tlv(0x18, Bytes(a.password)), t4);
    var t2 := Opt(a.user.Some?, Tlv(0x17, Bytes(a.user)), t3);
    var t1 := Opt(a.apn.Some? && !cdma, Tlv(0x14, Bytes(a.apn)), t2);
    ValueOfOpt(a.index != 0 && !cdma, Tlv(0x31, [a.index]), [], t);
    ValueOfOpt(true, Tlv(0x19, [a.ipFamily]), idx, t);
    ValueOfOpt(a.user.Some? && a.password.Some?, Tlv(0x16, [a.auth]), last, t);
    ValueOfOpt(a.password.Some?, Tlv(0x18, Bytes(a.password)), t4, t);
    ValueOfOpt(a.user.Some?, Tlv(0x17, Bytes(a.user)), t3, t);
    ValueOfOpt(a.apn.Some? && !cdma, Tlv(0x14, Bytes(a.apn)), t2, t);
    ValueOfOpt(true, Tlv(0x30, [if cdma then 2 else 1]), t1, t);
  }

  function Ascii(s: string): seq<byte> { seq(|s|, i requires 0 <= i < |s| => s[i] as int % 256) }

  /** The account in the request: the user's own, with the authentication whenever both parts of it are
      given; but on a CDMA network without a user name and a password the network's, with CHAP. */
  lemma RequestAccount(p: Profile, cdma: bool)
    ensures var xs := StartTlvs(p, cdma);
            var own := !cdma || (p.user.Some? && p.user.value != []) || (p.password.Some? && p.password.value != []);
            && ValueOf(xs, 0x17) == (if own then p.user else Some(Ascii("ctnet@mycdma.cn")))
            && ValueOf(xs, 0x18) == (if own then p.password else Some(Ascii("vnet.mobi")))
            && ValueOf(xs, 0x16) == (if !own then Some([2]) else if p.user.Some? && p.password.Some? then Some([p.auth]) else None)
  {
    StartCarriesProfile(p, cdma, 0x17);
    StartCarriesProfile(p, cdma, 0x18);
    StartCarriesProfile(p, cdma, 0x16);
    AccountText();
  }

  lemma AccountText()
    ensures Ascii("ctnet@mycdma.cn") == CDMA_USER && Ascii("vnet.mobi") == CDMA_PASSWORD
  {
  }

  /** What can be read back from a composed message: the two lengths count what follows them. */
  lemma MessageFields(qmiType: byte, tid: nat, msgType: nat, tlvs: seq<Tlv>)
    requires tid < 0x10000 && msgType < 0x10000 && |Encode(tlvs)| < 0x10000 - 12
    ensures var m := Message(qmiType, tid, msgType, tlvs);
            && |m| >= 13 && m[0] == 1 && Le16(m[1], m[2]) == |m| - 1 && m[3] == 0 && m[4] == qmiType && m[5] == 0
            && m[6] == 0 && Le16(m[7], m[8]) == tid && Le16(m[9], m[10]) == msgType && Le16(m[11], m[12]) == |m| - 13
            && m[13..] == Encode(tlvs)
  {
    var n, m := |Encode(tlvs)|, Message(qmiType, tid, msgType, tlvs);
    var h := MessageHeader(qmiType, tid, msgType, n);
    MessageParts(qmiType, tid, msgType, tlvs);
    HeaderFields(qmiType, tid, msgType, n);
    BehindHeader(m, h, Encode(tlvs));
  }

  lemma BehindHeader(m: seq<byte>, h: seq<byte>, rest: seq<byte>)
    requires |h| == 13 && m == h + rest
    ensures |m| == 13 + |rest| && m[13..] == rest && forall i :: 0 <= i < 13 ==> m[i] == h[i]
  {
  }

  lemma HeaderFields(qmiType: byte, tid: nat, msgType: nat, n: nat)
    requires tid < 0x10000 && msgType < 0x10000 && n < 0x10000 - 12
    ensures var h := MessageHeader(qmiType, tid, msgType, n);
            && h[0] == 1 && Le16(h[1], h[2]) == n + 12 && h[3] == 0 && h[4] == qmiType && h[5] == 0
            && h[6] == 0 && Le16(h[7], h[8]) == tid && Le16(h[9], h[10]) == msgType && Le16(h[11], h[12]) == n
  {
    LengthField(n);
    LengthField(n + 12);
    LengthField(tid);
    LengthField(msgType);
  }

  /** At `pos` in a TLV area stand a type, a length and a value of that length. */
  ghost predicate Holds(area: seq<byte>, pos: nat, t: byte, v: seq<byte>) {
    && pos + 3 + |v| <= |area| && area[pos] == t && Le16(area[pos + 1], area[pos + 2]) == |v|
    && area[pos + 3..pos + 3 + |v|] == v
  }

  lemma PlaceHolds(xs: seq<Tlv>, want: int)
    requires |Encode(xs)| < 0x10000
    ensures var k := Pick(xs, want);
            if k < |xs| then Place(xs, want).At? && Holds(Encode(xs), Place(xs, want).pos, xs[k].t, xs[k].v)
            else Place(xs, want) == Missing
  {
    var k := Pick(xs, want);
    if k < |xs| {
      TlvBytes(xs, k);
    }
  }

  lemma LengthField(n: nat)
    requires n < 0x10000
    ensures Le16(Lo(n), Hi(n)) == n
  {
  }

  /** Build and look up: on the bytes of the composed request, with the length its header gives, the
      manager's lookup by a type stops at exactly the profile's setting of that type, or finds nothing
      when there is none; and by 0x1000 + n it stops at the n-th TLV, and finds nothing past the last. */
  method ComposeAndLookUp(qmiType: byte, tid: nat, msgType: nat, p: Profile, cdma: bool, want: int)
    returns (msg: seq<byte>, f: Found)
    requires TLV_BASE + |Encode(StartTlvs(p, cdma))| <= BUFSIZE
    ensures |msg| == TLV_BASE + |Encode(StartTlvs(p, cdma))|
    ensures 0 <= want < 256 ==>
              match Setting(p, cdma, want)
              case Some(v) => f.At? && Holds(msg[TLV_BASE..], f.pos, want, v)
              case None => f == Missing
    ensures want > BY_INDEX ==>
              var n, xs := want - BY_INDEX, StartTlvs(p, cdma);
              if n <= |xs| then f.At? && f.pos == |Encode(xs[..n - 1])| && Holds(msg[TLV_BASE..], f.pos, xs[n - 1].t, xs[n - 1].v)
              else f == Missing
  {
    ghost var xs := StartTlvs(p, cdma);
    msg := Compose(qmiType, tid, msgType, p, cdma);
    MessageParts(qmiType, tid, msgType, xs);
    LengthField(|Encode(xs)|);
    var area := msg[TLV_BASE..];
    assert area == Encode(xs);
    f := GetTlv(area, Le16(msg[TLV_BASE - 2], msg[TLV_BASE - 1]), want, xs);
    PlaceHolds(xs, want);
    if 0 <= want < 256 {
      StartCarriesProfile(p, cdma, want);
    }
  }
}
