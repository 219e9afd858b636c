/** The connection manager's event loop: it checks the data calls, dials when one is down, waits
    longer after each failure, and tells the DHCP client when the link changes. */
module ConnManager {
  import opened Common

  // Connection statuses; suspended (3) and authenticating (4) are the remaining values.
  const UNKNOWN: byte := 0
  const DISCONNECTED: byte := 1
  const CONNECTED: byte := 2

  /** 1 << IpFamilyV4 and 1 << IpFamilyV6 */
  const V4_BIT := 16
  const V6_BIT := 64

  datatype Ops = QmiOps | MbimOps | AtcOps

  datatype Config = Config(enable4: bool, enable6: bool, ops: Ops)

  /** `link` is -1 before the first change; `dhcp` lists the masks passed to the DHCP client, a start
      for a nonzero mask and a stop for 0; `alarm` is the pending timer in seconds, 0 for none. */
  datatype State = State(
    attached: byte, loopback: bool, v4: byte, v6: byte,
    fails: nat, allowTime: int, link: int, dhcp: seq<int>, alarm: int, quit: bool)

  /** What the modem answers during a dial: the outcome of each call set-up with its address query. */
  datatype Dial = Dial(ok4: bool, ok6: bool)

  /** What it answers during a check: the status query of each family, and whether the IPv4 address
      stands up to the comparison with the modem's. */
  datatype Check = Check(query4: Option<byte>, address4: bool, status6: byte, attach: byte)

  /** A start carries the clock when it is handled and again when its dial, if there is one, is done. */
  datatype Event =
    | Start(now: int, dial: Dial, done: int)
    | Tick(check: Check)
    | Stop
    | Unplugged
    | ModemReset
    | Hangup
    | NetworkState(now: int, attach: byte)
    | CallList(now: int)
    | Loopback(on: bool)

  // ---------------------------------------------------------------- handlers as functions

  function LinkChange(s: State, link: int): State {
    if s.link == link then s else s.(link := link, dhcp := s.dhcp + [link])
  }

  function Mask(v4: byte, v6: byte): int {
    (if v4 == CONNECTED then V4_BIT else 0) + (if v6 == CONNECTED then V6_BIT else 0)
  }

  /** Seconds to wait after a failed dial that `n` failed dials went before. */
  function Backoff(n: nat): int {
    var table := [5, 10, 20, 40, 60];
    if n < |table| then table[n] else 60
  }

  predicate Dials(s: State, now: int) { (s.attached == 1 || s.loopback) && s.allowTime <= now }

  function Dial4(s: State, c: Config, d: Dial): byte {
    if c.enable4 && s.v4 != CONNECTED && d.ok4 then CONNECTED else s.v4
  }

  function Dial6(s: State, c: Config, d: Dial): byte {
    if c.enable6 && s.v6 != CONNECTED then
      if c.enable4 && c.ops != QmiOps then Dial4(s, c, d) else if d.ok6 then CONNECTED else s.v6
    else s.v6
  }

  /** An enabled family is down. */
  predicate Down(c: Config, v4: byte, v6: byte) {
    (c.enable4 && v4 == DISCONNECTED) || (c.enable6 && v6 == DISCONNECTED)
  }

  function OnStart(s: State, c: Config, now: int, d: Dial, done: int): State {
    if s.attached != 1 && !s.loopback then s.(alarm := 0)
    else if s.allowTime > now then s.(alarm := (s.allowTime - now + 999) / 1000)
    else
      var v4, v6 := Dial4(s, c, d), Dial6(s, c, d);
      var s1 := s.(v4 := v4, v6 := v6, alarm := 0);
      if Down(c, v4, v6) then
        s1.(fails := s.fails + 1, alarm := Backoff(s.fails), allowTime := Backoff(s.fails) * 1000 + done)
      else if v4 == CONNECTED || v6 == CONNECTED then s1.(fails := 0, allowTime := done)
      else s1
  }

  function Check4(s: State, c: Config, k: Check): byte {
    if c.enable4 && s.v4 != DISCONNECTED && k.query4.Some? then
      if k.query4.value == CONNECTED && !k.address4 then DISCONNECTED else k.query4.value
    else DISCONNECTED
  }

  function Check6(s: State, c: Config, k: Check): byte {
    if c.enable6 && s.v6 != DISCONNECTED then
      if c.enable4 && c.ops != QmiOps then Check4(s, c, k) else k.status6
    else DISCONNECTED
  }

  /** The statuses a check arrives at. */
  function Checked(s: State, c: Config, k: Check): State {
    s.(v4 := Check4(s, c, k), v6 := Check6(s, c, k), alarm := 0, attached := if s.attached != 1 then k.attach else s.attached)
  }

  /** What a check makes of the link once the statuses are known. */
  function Relinked(s: State): State {
    if s.v4 == DISCONNECTED && s.v6 == DISCONNECTED then LinkChange(s, 0)
    else if s.v4 == CONNECTED || s.v6 == CONNECTED then LinkChange(s, Mask(s.v4, s.v6))
    else s
  }

  function OnCheck(s: State, c: Config, k: Check): State { Relinked(Checked(s, c, k)) }

  function Quit(s: State): State { LinkChange(s, 0).(quit := true) }

  function Step(s: State, c: Config, e: Event): State {
    match e
    case Start(now, d, done) => OnStart(s, c, now, d, done)
    case Tick(k) => OnCheck(s, c, k)
    case Stop => Quit(LinkChange(s.(alarm := 0), 0))
    case Unplugged => Quit(LinkChange(s, 0))
    case ModemReset => Quit(s)
    case Hangup => Quit(s)
    case NetworkState(now, attach) =>
      if attach == 1 then s.(attached := attach) else s.(attached := attach, allowTime := now)
    case CallList(now) =>
      if s.v4 == CONNECTED || s.v6 == CONNECTED then s.(allowTime := now + 1000) else s
    case Loopback(on) => s.(loopback := on)
  }

  /** The handler sends the manager a start: a check or the network's return has found an enabled family
      down, or the loopback test begins. */
  predicate AsksStart(s: State, c: Config, e: Event) {
    match e
    case Tick(k) => Down(c, Check4(s, c, k), Check6(s, c, k))
    case NetworkState(_, attach) => attach == 1 && Down(c, s.v4, s.v6)
    case Loopback(on) => on
    case _ => false
  }

  /** Or a check. */
  predicate AsksCheck(e: Event) { e.CallList? }

  // ---------------------------------------------------------------- the manager object

  class Manager {
    const config: Config
    var attached: byte
    var loopback: bool
    var v4: byte
    var v6: byte
    var fails: nat
    var allowTime: int
    var link: int
    var dhcp: seq<int>
    var alarm: int
    var quit: bool

    /** qmi_main up to its loop. With AT commands it asks once whether the IPv4 call is `up` already. */
    constructor (config: Config, now: int, attached: byte, loopback: bool, up: bool)
      ensures this.config == config && Init(config, Now())
      ensures Now() == State(attached, loopback, v4, UNKNOWN, 0, now, -1, [], 0, false)
      ensures config.enable4 && config.ops == AtcOps ==> (v4 == CONNECTED <==> up)
    {
      this.config := config;
      this.attached, this.loopback, v4, v6, fails, allowTime := attached, loopback, UNKNOWN, UNKNOWN, 0, now;
      link, dhcp, alarm, quit := -1, [], 0, false;
      if config.enable4 && config.ops == AtcOps {
        v4 := if up then CONNECTED else DISCONNECTED;
      }
    }

    function Now(): State
      reads this
    {
      State(attached, loopback, v4, v6, fails, allowTime, link, dhcp, alarm, quit)
    }

    /** usbnet_link_change */
    method UsbnetLinkChange(to: int)
      modifies `link, `dhcp
      ensures Now() == LinkChange(old(Now()), to)
    {
      if link == to {
        return;
      }
      link := to;
      dhcp := dhcp + [to];
    }

    /** SIG_EVENT_START */
    method SigStart(now: int, d: Dial, done: int)
      modifies this
      ensures Now() == OnStart(old(Now()), config, now, d, done)
    {
      alarm := 0;
      if attached != 1 && !loopback {
        return;
      }
      if allowTime > now {
        alarm := (allowTime - now + 999) / 1000;
        return;
      }
      SetUpCalls(d);
      Settle(done);
    }

    /** The back-off in SIG_EVENT_START. */
    method Settle(now: int)
      modifies `fails, `alarm, `allowTime
      ensures var down := Down(config, v4, v6);
              var up := v4 == CONNECTED || v6 == CONNECTED;
              && fails == (if down then old(fails) + 1 else if up then 0 else old(fails))
              && alarm == (if down then Backoff(old(fails)) else old(alarm))
              && allowTime == if down then Backoff(old(fails)) * 1000 + now else if up then now else old(allowTime)
    {
      if (config.enable4 && v4 == DISCONNECTED) || (config.enable6 && v6 == DISCONNECTED) {
        var table := [5, 10, 20, 40, 60];
        if fails < |table| {
          allowTime := table[fails];
        } else {
          allowTime := 60;
        }
        fails := fails + 1;
        alarm := allowTime;
        allowTime := allowTime * 1000 + now;
      } else if v4 == CONNECTED || v6 == CONNECTED {
        fails := 0;
        allowTime := now;
      }
    }

    /** The dialling in SIG_EVENT_START. */
    method SetUpCalls(d: Dial)
      modifies `v4, `v6
      ensures v4 == Dial4(old(Now()), config, d) && v6 == Dial6(old(Now()), config, d)
    {
      if config.enable4 && v4 != CONNECTED {
        if d.ok4 {
          v4 := CONNECTED;
        }
      }
      if config.enable6 && v6 != CONNECTED {
        if config.enable4 && config.ops != QmiOps {
          v6 := v4;
        } else if d.ok6 {
          v6 := CONNECTED;
        }
      }
    }

    /** The first half of SIG_EVENT_CHECK: the queries and the statuses. */
    method QueryStatus(k: Check)
      modifies `alarm, `attached, `v4, `v6
      ensures Now() == Checked(old(Now()), config, k)
    {
      alarm := 0;
      if attached != 1 {
        attached := k.attach;
      }
      if config.enable4 && v4 != DISCONNECTED && k.query4.Some? {
        v4 := k.query4.value;
        if v4 == CONNECTED && !k.address4 {
          v4 := DISCONNECTED;
        }
      } else {
        v4 := DISCONNECTED;
      }
      if config.enable6 && v6 != DISCONNECTED {
        if config.enable4 && config.ops != QmiOps {
          v6 := v4;
        } else {
          v6 := k.status6;
        }
      } else {
        v6 := DISCONNECTED;
      }
    }

    /** SIG_EVENT_CHECK; true when it sends itself a start. */
    method SigCheck(k: Check) returns (start: bool)
      modifies this
      ensures Now() == OnCheck(old(Now()), config, k) && start == Down(config, v4, v6)
    {
      QueryStatus(k);
      if v4 == DISCONNECTED && v6 == DISCONNECTED {
        UsbnetLinkChange(0);
      } else if v4 == CONNECTED || v6 == CONNECTED {
        var mask := 0;
        if v4 == CONNECTED {
          mask := mask + V4_BIT;
        }
        if v6 == CONNECTED {
          mask := mask + V6_BIT;
        }
        UsbnetLinkChange(mask);
      }
      start := (config.enable4 && v4 == DISCONNECTED) || (config.enable6 && v6 == DISCONNECTED);
    }

    /** The label every exit from the loop goes through. */
    method MainQuit()
      modifies `link, `dhcp, `quit
      ensures Now() == Quit(old(Now()))
    {
      UsbnetLinkChange(0);
      quit := true;
    }

    /** One turn of the loop: the event's handler and, for the events that end it, the exit. The manager
        sends itself a start or a check. */
    method Handle(e: Event) returns (start: bool, check: bool)
      modifies this
      ensures Now() == Step(old(Now()), config, e)
      ensures start == AsksStart(old(Now()), config, e) && check == AsksCheck(e)
    {
      start, check := false, false;
      match e {
        case Start(now, d, done) => SigStart(now, d, done);
        case Tick(k) => start := SigCheck(k);
        case Stop =>
          alarm := 0;
          UsbnetLinkChange(0);
          MainQuit();
        case Unplugged =>
          UsbnetLinkChange(0);
          MainQuit();
        case ModemReset => MainQuit();
        case Hangup => MainQuit();
        case NetworkState(now, attach) =>
          attached := attach;
          if attach == 1 {
            start := (config.enable4 && v4 == DISCONNECTED) || (config.enable6 && v6 == DISCONNECTED);
          } else {
            allowTime := now;
          }
        case CallList(now) =>
          if v4 == CONNECTED || v6 == CONNECTED {
            allowTime := now + 1000;
          }
          check := true;
        case Loopback(on) =>
          loopback := on;
          start := on;
      }
    }
  }

  // ---------------------------------------------------------------- runs

  /** The loop is entered with no link and no failure counted, and with both statuses unknown, except
      that a manager that uses AT commands has queried the IPv4 call once. */
  predicate Init(c: Config, s: State) {
    && s.link == -1 && s.dhcp == [] && s.fails == 0 && !s.quit && s.v6 == UNKNOWN
    && (if c.enable4 && c.ops == AtcOps then s.v4 == DISCONNECTED || s.v4 == CONNECTED else s.v4 == UNKNOWN)
  }

  predicate Behavior(c: Config, ss: seq<State>, es: seq<Event>) {
    && |ss| == |es| + 1 && Init(c, ss[0])
    && forall k :: 0 <= k < |es| ==> !ss[k].quit && ss[k + 1] == Step(ss[k], c, es[k])
  }

  /** The last mask given to the DHCP client is the link in force, and no mask is given twice in a
      row; a run that has ended has the link at 0. */
  predicate LinkLogged(s: State) {
    && s.link == (if s.dhcp == [] then -1 else s.dhcp[|s.dhcp| - 1])
    && (forall i :: 0 < i < |s.dhcp| ==> s.dhcp[i] != s.dhcp[i - 1])
    && (s.dhcp != [] ==> s.dhcp[0] != -1)
    && (s.quit ==> s.link == 0)
  }

  lemma LinkChangeKeeps(s: State, link: int)
    requires LinkLogged(s) && link >= 0 && !s.quit
    ensures LinkLogged(LinkChange(s, link))
  {
  }

  lemma QuitKeeps(s: State)
    requires LinkLogged(s) && !s.quit
    ensures LinkLogged(Quit(s)) && Quit(s).link == 0
  {
    LinkChangeKeeps(s, 0);
  }

  lemma CheckKeeps(s: State, c: Config, k: Check)
    requires LinkLogged(s) && !s.quit
    ensures LinkLogged(OnCheck(s, c, k))
  {
    var s1 := Checked(s, c, k);
    LinkChangeKeeps(s1, Mask(s1.v4, s1.v6));
    LinkChangeKeeps(s1, 0);
  }

  lemma StepKeepsLink(s: State, c: Config, e: Event)
    requires LinkLogged(s) && !s.quit
    ensures LinkLogged(Step(s, c, e))
  {
    match e
    case Tick(k) => CheckKeeps(s, c, k);
    case Stop =>
      LinkChangeKeeps(s.(alarm := 0), 0);
      QuitKeeps(LinkChange(s.(alarm := 0), 0));
    case Unplugged =>
      LinkChangeKeeps(s, 0);
      QuitKeeps(LinkChange(s, 0));
    case ModemReset => QuitKeeps(s);
    case Hangup => QuitKeeps(s);
    case _ =>
      assert Step(s, c, e).link == s.link && Step(s, c, e).dhcp == s.dhcp && !Step(s, c, e).quit;
  }

  /** DHCP is started or stopped only when the link mask changes, in every run, and every exit leaves
      the mask 0. */
  lemma {:induction false} DhcpFollowsLink(c: Config, ss: seq<State>, es: seq<Event>, k: nat)
    requires Behavior(c, ss, es) && k < |ss|
    ensures LinkLogged(ss[k])
  {
    if k > 0 {
      DhcpFollowsLink(c, ss, es, k - 1);
      StepKeepsLink(ss[k - 1], c, es[k - 1]);
    }
  }

  /** After a check the link is the set of connected families exactly when a family is connected, both
      are disconnected, or the link was 0 already: a call that is suspended, say, leaves an old link
      standing. */
  lemma CheckSetsLinkExactly(s: State, c: Config, k: Check)
    ensures var s' := OnCheck(s, c, k);
            s'.link == Mask(s'.v4, s'.v6)
            <==> (s'.v4 == CONNECTED || s'.v6 == CONNECTED || (s'.v4 == DISCONNECTED && s'.v6 == DISCONNECTED) || s.link == 0)
  {
  }

  /** A check, or a dial, has come before moment `k`. */
  predicate Settled(c: Config, ss: seq<State>, es: seq<Event>, k: nat)
    requires Behavior(c, ss, es) && k < |ss|
  {
    exists i :: 0 <= i < k && (es[i].Tick? || (es[i].Start? && Dials(ss[i], es[i].now)))
  }

  /** Outside QMI, with both families enabled, there is one data call. The families' statuses agree
      from the first check or dial on; before it, exactly a manager that uses AT commands has them
      differ, because it has queried one of them. The link is never brought up for one family alone. */
  lemma {:induction false} FamiliesAgreeExactly(c: Config, ss: seq<State>, es: seq<Event>, k: nat)
    requires Behavior(c, ss, es) && k < |ss|
    requires c.enable4 && c.enable6 && c.ops != QmiOps
    ensures ss[k].v4 == ss[k].v6 <==> Settled(c, ss, es, k) || c.ops != AtcOps
    ensures !Settled(c, ss, es, k) ==> ss[k].v6 == UNKNOWN && ss[k].v4 == ss[0].v4
    ensures forall i :: 0 <= i < |ss[k].dhcp| ==> ss[k].dhcp[i] == 0 || ss[k].dhcp[i] == V4_BIT + V6_BIT
  {
    if k > 0 {
      FamiliesAgreeExactly(c, ss, es, k - 1);
      var e := es[k - 1];
      if Settled(c, ss, es, k - 1) || e.Tick? || (e.Start? && Dials(ss[k - 1], e.now)) {
        assert Settled(c, ss, es, k);
      }
      SettlingStep(ss[k - 1], c, e);
    }
  }

  /** One event outside QMI: a check or a dial makes the statuses agree, any other leaves them alone. */
  lemma SettlingStep(s: State, c: Config, e: Event)
    requires c.enable4 && c.enable6 && c.ops != QmiOps && (s.v4 == s.v6 || s.v6 == UNKNOWN)
    ensures var s' := Step(s, c, e);
            && (if e.Tick? || (e.Start? && Dials(s, e.now)) then s'.v4 == s'.v6 else s'.v4 == s.v4 && s'.v6 == s.v6)
            && (s'.dhcp == s.dhcp || s'.dhcp == s.dhcp + [0] || s'.dhcp == s.dhcp + [V4_BIT + V6_BIT])
  {
  }

  /** Both families share one set-up: outside QMI, when both are enabled. */
  predicate Shared(c: Config) { c.enable4 && c.enable6 && c.ops != QmiOps }

  /** What a dial makes of the statuses: an enabled family that was not connected is connected exactly
      if its set-up was answered, and keeps its status otherwise; nothing else changes. When the
      families share one set-up, IPv6 follows IPv4. */
  lemma DialConnectsExactly(s: State, c: Config, now: int, d: Dial, done: int)
    requires Dials(s, now)
    ensures var s' := Step(s, c, Start(now, d, done));
            && (s'.v4 == CONNECTED <==> s.v4 == CONNECTED || (c.enable4 && d.ok4))
            && (s'.v4 != CONNECTED ==> s'.v4 == s.v4)
            && (if Shared(c) && s.v6 != CONNECTED then s'.v6 == s'.v4
                else (s'.v6 == CONNECTED <==> s.v6 == CONNECTED || (c.enable6 && d.ok6)) && (s'.v6 != CONNECTED ==> s'.v6 == s.v6))
            && (s'.link, s'.dhcp, s'.attached, s'.loopback) == (s.link, s.dhcp, s.attached, s.loopback)
  {
  }

  /** What a check makes of them: a family is connected exactly if it is enabled, was not disconnected, the
      modem says so, and, for IPv4, the address stands up. */
  lemma CheckConnectsExactly(s: State, c: Config, k: Check)
    ensures var s' := Step(s, c, Tick(k));
            && (s'.v4 == CONNECTED <==> c.enable4 && s.v4 != DISCONNECTED && k.query4 == Some(CONNECTED) && k.address4)
            && (!c.enable4 || s.v4 == DISCONNECTED || k.query4 == None || (k.query4 == Some(CONNECTED) && !k.address4) ==> s'.v4 == DISCONNECTED)
            && (c.enable4 && s.v4 != DISCONNECTED && k.query4.Some? && k.query4 != Some(CONNECTED) ==> Some(s'.v4) == k.query4)
            && s'.v6 == (if !c.enable6 || s.v6 == DISCONNECTED then DISCONNECTED else if Shared(c) then s'.v4 else k.status6)
            && s'.attached == (if s.attached == 1 then 1 else k.attach)
            && s'.alarm == 0 && s'.allowTime == s.allowTime && s'.loopback == s.loopback
  {
  }

  /** The mask's bits are the families': bit 4 for IPv4, bit 6 for IPv6. */
  lemma MaskBits(v4: byte, v6: byte)
    ensures var m := Mask(v4, v6);
            && 0 <= m < 128 && (m / 16 % 2 == 1 <==> v4 == CONNECTED) && (m / 64 % 2 == 1 <==> v6 == CONNECTED)
            && m % 16 == 0 && m / 32 % 2 == 0
  {
  }

  /** A start that may not dial changes nothing but the timer: off when there is no network, and else to
      the first whole second at which dialling is allowed. */
  lemma NoDialWaits(s: State, c: Config, now: int, d: Dial, done: int)
    requires !Dials(s, now)
    ensures var s' := Step(s, c, Start(now, d, done));
            && s' == s.(alarm := s'.alarm)
            && (if s.attached != 1 && !s.loopback then s'.alarm == 0
                else (s'.alarm - 1) * 1000 < s.allowTime - now <= s'.alarm * 1000)
  {
  }

  /** Exactly the stop, the unplugging, the modem's reset and a poll error end the loop, with the link down;
      any other event leaves it running. */
  lemma ExitsExactly(s: State, c: Config, e: Event)
    requires !s.quit
    ensures var s' := Step(s, c, e);
            && (s'.quit <==> e == Stop || e == Unplugged || e == ModemReset || e == Hangup)
            && (s'.quit ==> s'.link == 0 && s'.v4 == s.v4 && s'.v6 == s.v6 && s'.alarm == if e == Stop then 0 else s.alarm)
  {
  }

  /** Losing the network allows the next dial at once, gaining it leaves the time as it was; a change of
      the call list while connected puts the next dial off for a second; and none of these events, nor
      the loopback setting, touches statuses, link or failures. */
  lemma NoticesReschedule(s: State, c: Config, e: Event, now: int)
    requires e == CallList(now) || e.Loopback? || (e.NetworkState? && e.now == now)
    ensures var s' := Step(s, c, e);
            && (s'.v4, s'.v6, s'.link, s'.dhcp, s'.fails, s'.alarm) == (s.v4, s.v6, s.link, s.dhcp, s.fails, s.alarm)
            && s'.attached == (if e.NetworkState? then e.attach else s.attached)
            && s'.loopback == (if e.Loopback? then e.on else s.loopback)
            && s'.allowTime == (if e.NetworkState? && e.attach != 1 then now
                                else if e.CallList? && (s.v4 == CONNECTED || s.v6 == CONNECTED) then now + 1000
                                else s.allowTime)
  {
  }

  /** The answers to a dial leave an enabled family down: its set-up was asked for and not answered. */
  predicate DialFails(s: State, c: Config, d: Dial) {
    || (c.enable4 && s.v4 == DISCONNECTED && !d.ok4)
    || (c.enable6 && s.v6 == DISCONNECTED && !d.ok6 && !Shared(c))
  }

  /** Or they leave a family up. */
  predicate DialSucceeds(s: State, c: Config, d: Dial) {
    && !DialFails(s, c, d)
    && (s.v4 == CONNECTED || s.v6 == CONNECTED || (c.enable4 && d.ok4) || (c.enable6 && d.ok6 && !Shared(c)))
  }

  /** The start event at `i` dialled, and the modem's answers left an enabled family down. */
  predicate FailedDial(c: Config, ss: seq<State>, es: seq<Event>, i: nat)
    requires Behavior(c, ss, es) && i < |es|
  {
    es[i].Start? && Dials(ss[i], es[i].now) && DialFails(ss[i], c, es[i].dial)
  }

  /** The start event at `i` dialled and succeeded. */
  predicate GoodDial(c: Config, ss: seq<State>, es: seq<Event>, i: nat)
    requires Behavior(c, ss, es) && i < |es|
  {
    es[i].Start? && Dials(ss[i], es[i].now) && DialSucceeds(ss[i], c, es[i].dial)
  }

  /** Failed dials before moment `k` that no successful one followed. */
  function FailsInARow(c: Config, ss: seq<State>, es: seq<Event>, k: nat): nat
    requires Behavior(c, ss, es) && k < |ss|
  {
    if k == 0 then 0
    else if FailedDial(c, ss, es, k - 1) then FailsInARow(c, ss, es, k - 1) + 1
    else if GoodDial(c, ss, es, k - 1) then 0
    else FailsInARow(c, ss, es, k - 1)
  }

  lemma StepFails(s: State, c: Config, e: Event)
    ensures var s' := Step(s, c, e);
            if !(e.Start? && Dials(s, e.now)) then s'.fails == s.fails
            else if DialFails(s, c, e.dial) then s'.fails == s.fails + 1
            else s'.fails == if DialSucceeds(s, c, e.dial) then 0 else s.fails
  {
  }

  function Pow2(n: nat): nat { if n == 0 then 1 else 2 * Pow2(n - 1) }

  lemma {:induction false} Pow2Grows(n: nat, m: nat)
    requires n <= m
    ensures Pow2(n) <= Pow2(m)
  {
    if n < m {
      Pow2Grows(n, m - 1);
    }
  }

  /** The table of waits doubles from five seconds and stops at a minute. */
  lemma BackoffDoubles(n: nat)
    ensures Backoff(n) == if 5 * Pow2(n) < 60 then 5 * Pow2(n) else 60
  {
    assert Pow2(0) == 1 && Pow2(1) == 2 && Pow2(2) == 4 && Pow2(3) == 8 && Pow2(4) == 16;
    if n >= 4 {
      Pow2Grows(4, n);
    }
  }

  lemma {:induction false} FailsCounted(c: Config, ss: seq<State>, es: seq<Event>, k: nat)
    requires Behavior(c, ss, es) && k < |ss|
    ensures ss[k].fails == FailsInARow(c, ss, es, k)
  {
    if k > 0 {
      FailsCounted(c, ss, es, k - 1);
      StepFails(ss[k - 1], c, es[k - 1]);
    }
  }

  /** A failed dial with `n` failures in a row before it sets the timer to 5, 10, 20, 40, 60, 60, ...
      seconds, and the earliest time of the next dial to that long after this one is done. */
  lemma BackoffSchedule(c: Config, ss: seq<State>, es: seq<Event>, i: nat)
    requires Behavior(c, ss, es) && i < |es| && FailedDial(c, ss, es, i)
    ensures var n := FailsInARow(c, ss, es, i);
            && ss[i + 1].alarm == Backoff(n) && ss[i + 1].allowTime == es[i].done + 1000 * Backoff(n)
            && ss[i + 1].alarm == (if 5 * Pow2(n) < 60 then 5 * Pow2(n) else 60)
            && FailsInARow(c, ss, es, i + 1) == n + 1
  {
    FailsCounted(c, ss, es, i);
    BackoffDoubles(FailsInARow(c, ss, es, i));
  }

  /** A dial that leaves a family up, and none down, sets no timer and starts the count afresh, and the
      next dial is allowed at once; one that does neither leaves count and time as they were. */
  lemma GoodDialResets(c: Config, ss: seq<State>, es: seq<Event>, i: nat)
    requires Behavior(c, ss, es) && i < |es| && es[i].Start? && Dials(ss[i], es[i].now) && !FailedDial(c, ss, es, i)
    ensures ss[i + 1].alarm == 0
    ensures if GoodDial(c, ss, es, i) then ss[i + 1].fails == 0 && ss[i + 1].allowTime == es[i].done
            else ss[i + 1].fails == ss[i].fails && ss[i + 1].allowTime == ss[i].allowTime
  {
    DialEnds(ss[i], c, es[i].now, es[i].dial, es[i].done);
  }

  lemma DialEnds(s: State, c: Config, now: int, d: Dial, done: int)
    requires Dials(s, now) && !DialFails(s, c, d)
    ensures var s' := Step(s, c, Start(now, d, done));
            && s'.alarm == 0 && s'.allowTime == (if DialSucceeds(s, c, d) then done else s.allowTime)
            && s'.fails == if DialSucceeds(s, c, d) then 0 else s.fails
  {
  }

  /** Events that set a new earliest time for the next dial. */
  predicate Reschedules(e: Event) { e.CallList? || (e.NetworkState? && e.attach != 1) }

  /** And until that time has come nothing is dialled, unless the network was lost or the call list
      changed: a start that comes too early only sets the timer again. */
  lemma {:induction false} NoEarlyDial(c: Config, ss: seq<State>, es: seq<Event>, i: nat, k: nat)
    requires Behavior(c, ss, es) && i < k <= |es| && FailedDial(c, ss, es, i)
    requires forall j :: i < j < k ==> !Reschedules(es[j])
    requires forall j :: i < j < k && es[j].Start? ==> es[j].now < ss[i + 1].allowTime
    ensures ss[k].allowTime == ss[i + 1].allowTime
    ensures forall now :: now < ss[i + 1].allowTime ==> !Dials(ss[k], now)
  {
    if k > i + 1 {
      NoEarlyDial(c, ss, es, i, k - 1);
      assert !Reschedules(es[k - 1]);
    }
  }


  /** A start that the manager has sent itself and not yet handled. */
  predicate StartDue(c: Config, ss: seq<State>, es: seq<Event>, k: nat)
    requires Behavior(c, ss, es) && k < |ss|
  {
    k > 0 && (AsksStart(ss[k - 1], c, es[k - 1]) || (StartDue(c, ss, es, k - 1) && !es[k - 1].Start?))
  }

  /** A check, the one it starts with included. */
  predicate CheckDue(c: Config, ss: seq<State>, es: seq<Event>, k: nat)
    requires Behavior(c, ss, es) && k < |ss|
  {
    k == 0 || AsksCheck(es[k - 1]) || (CheckDue(c, ss, es, k - 1) && !es[k - 1].Tick?)
  }

  /** The manager never gives up: in every run, at every moment, if an enabled family is down and there is
      a network to dial, then the timer is set, or a start or a check is on its way. */
  lemma {:induction false} RetryDue(c: Config, ss: seq<State>, es: seq<Event>, k: nat)
    requires Behavior(c, ss, es) && k < |ss| && !ss[k].quit
    requires ss[k].attached == 1 || ss[k].loopback
    requires (c.enable4 && ss[k].v4 == DISCONNECTED) || (c.enable6 && ss[k].v6 == DISCONNECTED)
    ensures ss[k].alarm > 0 || StartDue(c, ss, es, k) || CheckDue(c, ss, es, k)
  {
    if k > 0 {
      var s, e := ss[k - 1], es[k - 1];
      AsksWhenDown(s, c, e);
      if !e.Start? && !AsksStart(s, c, e) && !AsksCheck(e) {
        RetryDue(c, ss, es, k - 1);
      }
    }
  }

  /** One event: what leaves a family down where there is a network sets the timer or sends a start, unless
      it touches neither status, network nor timer. */
  lemma AsksWhenDown(s: State, c: Config, e: Event)
    requires var s' := Step(s, c, e); Down(c, s'.v4, s'.v6) && (s'.attached == 1 || s'.loopback) && !s'.quit
    ensures var s' := Step(s, c, e);
            && (e.Start? ==> s'.alarm > 0) && (e.Tick? ==> AsksStart(s, c, e))
            && (!e.Start? && !AsksStart(s, c, e) ==>
                  (s'.v4, s'.v6, s'.alarm) == (s.v4, s.v6, s.alarm) && (s.attached == 1 || s.loopback))
  {
  }
}
