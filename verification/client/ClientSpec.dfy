/** The DHCP client's event loop as a function: one turn takes a loop-head state and an
    event to the next loop-head state, or to an exit.  Times are whole seconds. */
module ClientSpec {
  import opened Wrappers

  const INT_MAX := 0x7fff_ffff
  const TWO_32 := 0x1_0000_0000

  type Ip = nat
  type Xid = nat

  datatype State =
    | InitSelecting | Requesting | Bound | Renewing | Rebinding | RenewRequested | Released

  datatype ListenMode = ListenNone | ListenKernel | ListenRaw

  /** The command line: -T, -t, -A, -q, -R and -a. */
  datatype Config = Config(
    discoverTimeout: nat, discoverRetries: nat, tryagainTimeout: nat,
    quit: bool, releaseOnExit: bool, arping: bool)

  /** The option parser hands out non-negative ints. */
  predicate ValidConfig(cfg: Config) {
    cfg.discoverTimeout <= INT_MAX && cfg.tryagainTimeout <= INT_MAX
  }

  /** What the client does to its surroundings, in order. */
  datatype Action =
    | SendDiscover(xid: Xid, requested: Ip)
    | SendSelect(xid: Xid, server: Ip, requested: Ip)
    | SendRenew(xid: Xid, server: Ip, ciaddr: Ip)
    | SendRelease(server: Ip, ciaddr: Ip)
    | SendDecline(server: Ip, requested: Ip)
    | ScriptDeconfig
    | ScriptLeaseFail
    | ScriptNak
    | ScriptBound(ip: Ip)
    | ScriptRenew(ip: Ip)

  /** The variables of the loop.  `log` is everything done so far and `exit` the exit
      code once the loop has been left; -n, -b and -f change as the loop runs. */
  datatype Client = Client(
    state: State, listen: ListenMode, socketOpen: bool,
    timeout: int, waited: nat, packetNum: nat,
    xid: Xid, server: Ip, requested: Ip,
    optN: bool, optB: bool, optF: bool,
    log: seq<Action>, exit: Option<int>)

  /** What a well-formed DHCP message brings, as the loop looks at it. */
  datatype Message = Message(
    xid: Xid, forUs: bool, kind: Option<nat>,
    yiaddr: Ip, serverId: Option<Ip>, leaseTime: Option<nat>, addressFree: bool)

  datatype Reading = ReadError | ReadIgnored | ReadMessage(message: Message)

  /** Why select returned.  `elapsed` is the time spent in it. */
  datatype Event =
    | TimedOut(elapsed: nat, interfaceOk: bool, freshXid: Xid)
    | Interrupted(elapsed: nat)
    | Spurious(elapsed: nat)
    | SigUsr1(elapsed: nat)
    | SigUsr2(elapsed: nat)
    | SigTerm(elapsed: nat)
    | Readable(elapsed: nat, reading: Reading)

  const DHCPOFFER := 2
  const DHCPACK := 5
  const DHCPNAK := 6

  /** The C expression `(int)(timeout - already_waited_sec)`: an int minus an unsigned. */
  function Wait(timeout: int, waited: nat): int {
    var d := (timeout - waited) % TWO_32;
    if d <= INT_MAX then d else d - TWO_32
  }

  /** `already_waited_sec` is an unsigned int. */
  function AddWaited(waited: nat, more: nat): nat {
    (waited + more) % TWO_32
  }

  /** Select is called only for a positive wait, and returns in time. */
  predicate Enabled(c: Client, ev: Event) {
    var wait := Wait(c.timeout, c.waited);
    && c.exit == None
    && (if ev.TimedOut? then ev.elapsed == (if wait > 0 then wait else 0)
        else wait > 0 && ev.elapsed <= wait)
  }

  function Do(c: Client, a: Action): Client {
    c.(log := c.log + [a])
  }

  function ChangeListenMode(c: Client, mode: ListenMode): Client {
    c.(listen := mode, socketOpen := mode != ListenNone)
  }

  function PerformRenew(c: Client): Client {
    match c.state
    case Bound => ChangeListenMode(c, ListenKernel).(state := RenewRequested)
    case Renewing => c.(state := RenewRequested)
    case Rebinding => c.(state := RenewRequested)
    case RenewRequested => ChangeListenMode(Do(c, ScriptDeconfig), ListenRaw).(state := InitSelecting)
    case Requesting => ChangeListenMode(c, ListenRaw).(state := InitSelecting)
    case Released => ChangeListenMode(c, ListenRaw).(state := InitSelecting)
    case InitSelecting => c
  }

  function PerformRelease(c: Client): Client {
    var d := if c.state == Bound || c.state == Renewing || c.state == Rebinding
             then Do(Do(c, SendRelease(c.server, c.requested)), ScriptDeconfig)
             else c;
    ChangeListenMode(d, ListenNone).(state := Released)
  }

  function Leave(cfg: Config, c: Client): Client {
    (if cfg.releaseOnExit then PerformRelease(c) else c).(exit := Some(0))
  }

  function LeaseFail(cfg: Config, c: Client): Client {
    var d := Do(c, ScriptLeaseFail);
    if d.optB then d.(optB := false, optF := true, timeout := cfg.tryagainTimeout, packetNum := 0)
    else if d.optN then d.(exit := Some(1))
    else d.(timeout := cfg.tryagainTimeout, packetNum := 0)
  }

  predicate MayRetry(cfg: Config, c: Client) {
    cfg.discoverRetries == 0 || c.packetNum < cfg.discoverRetries
  }

  function Rebind(c: Client): Client {
    var d := ChangeListenMode(c, ListenRaw).(state := Rebinding);
    if d.timeout > 0 then Do(d, SendRenew(d.xid, 0, d.requested)).(timeout := d.timeout / 2)
    else Do(d, ScriptDeconfig).(state := InitSelecting, packetNum := 0)
  }

  function Renew(c: Client): Client {
    if c.timeout > 60 then Do(c, SendRenew(c.xid, c.server, c.requested)).(timeout := c.timeout / 2)
    else Rebind(c)
  }

  function Discover(cfg: Config, c: Client, freshXid: Xid): Client {
    if MayRetry(cfg, c) then
      var d := if c.packetNum == 0 then c.(xid := freshXid) else c;
      Do(d, SendDiscover(d.xid, d.requested)).(timeout := cfg.discoverTimeout, packetNum := d.packetNum + 1)
    else LeaseFail(cfg, c)
  }

  function Select(cfg: Config, c: Client): Client {
    if MayRetry(cfg, c) then
      Do(c, SendSelect(c.xid, c.server, c.requested)).(timeout := cfg.discoverTimeout, packetNum := c.packetNum + 1)
    else LeaseFail(cfg, ChangeListenMode(c, ListenRaw).(state := InitSelecting))
  }

  function OnTimeout(cfg: Config, c: Client, interfaceOk: bool, freshXid: Xid): Client {
    if !interfaceOk then Leave(cfg, c) else
    var d := c.(waited := 0);
    match d.state
    case InitSelecting => Discover(cfg, d, freshXid)
    case Requesting => Select(cfg, d)
    case Bound => Renew(ChangeListenMode(d, ListenKernel).(state := Renewing))
    case RenewRequested => Renew(d)
    case Renewing => Renew(d)
    case Rebinding => Rebind(d)
    case Released => d.(timeout := INT_MAX)
  }

  function OnUsr1(cfg: Config, c: Client): Client {
    var d := PerformRenew(c.(waited := 0));
    if d.state == RenewRequested then
      Renew(if d.timeout > cfg.tryagainTimeout then d.(timeout := cfg.tryagainTimeout) else d)
    else d.(packetNum := 0, timeout := 0)
  }

  /** The lease time, an hour when the server names none, kept within bounds. */
  function ClampedLease(leaseTime: Option<nat>): nat {
    match leaseTime
    case None => 3600
    case Some(n) => if n < 0x10 then 0x10 else if n >= 0x1000_0000 then 0x0fff_ffff else n
  }

  function OnOffer(c: Client, m: Message): Client {
    c.(server := (match m.serverId case Some(ip) => ip case None => 0),
       requested := m.yiaddr, state := Requesting, timeout := 0, packetNum := 0, waited := 0)
  }

  function Decline(cfg: Config, c: Client, m: Message): Client {
    var d := Do(c, SendDecline(c.server, m.yiaddr));
    var e := if c.state != Requesting then Do(d, ScriptDeconfig) else d;
    ChangeListenMode(e, ListenRaw).(
      state := InitSelecting, requested := 0, timeout := cfg.tryagainTimeout, packetNum := 0, waited := 0)
  }

  function Bind(c: Client, m: Message): Client {
    var d := c.(timeout := ClampedLease(m.leaseTime) / 2, requested := m.yiaddr);
    var e := Do(d, if c.state == Requesting then ScriptBound(m.yiaddr) else ScriptRenew(m.yiaddr));
    ChangeListenMode(e.(state := Bound), ListenNone)
  }

  function OnAck(cfg: Config, c: Client, m: Message): Client {
    if cfg.arping && !m.addressFree then Decline(cfg, c, m)
    else
      var d := Bind(c, m);
      if cfg.quit then Leave(cfg, d)
      else if d.optF then d.(optN := false, waited := 0)
      else d.(optN := false, optB := false, optF := true, waited := 0)
  }

  function OnNak(c: Client): Client {
    var d := Do(c, ScriptNak);
    var e := if c.state != Requesting then Do(d, ScriptDeconfig) else d;
    ChangeListenMode(e, ListenRaw).(
      state := InitSelecting, requested := 0, timeout := 0, packetNum := 0, waited := 0)
  }

  function OnMessage(cfg: Config, c: Client, m: Message): Client {
    if m.xid != c.xid || !m.forUs || m.kind == None then c
    else if c.state == InitSelecting then
      if m.kind.value == DHCPOFFER then OnOffer(c, m) else c
    else if c.state == Bound || c.state == Released then c
    else if m.kind.value == DHCPACK then OnAck(cfg, c, m)
    else if m.kind.value == DHCPNAK then OnNak(c)
    else c
  }

  /** `slept` is the pause after a read error. */
  function OnReadable(cfg: Config, c: Client, elapsed: nat, reading: Reading): Client {
    if c.listen == ListenNone then c
    else match reading
      case ReadError => ChangeListenMode(c, c.listen).(waited := AddWaited(c.waited, elapsed + cfg.discoverTimeout))
      case ReadIgnored => c.(waited := AddWaited(c.waited, elapsed))
      case ReadMessage(m) => OnMessage(cfg, c.(waited := AddWaited(c.waited, elapsed)), m)
  }

  /** One turn of the loop. */
  function Turn(cfg: Config, c: Client, ev: Event): Client {
    match ev
    case TimedOut(_, interfaceOk, freshXid) => OnTimeout(cfg, c, interfaceOk, freshXid)
    case Interrupted(elapsed) => c.(waited := AddWaited(c.waited, elapsed))
    case Spurious(_) => c
    case SigUsr1(_) => OnUsr1(cfg, c)
    case SigUsr2(_) => PerformRelease(c).(timeout := INT_MAX)
    case SigTerm(_) => Leave(cfg, c)
    case Readable(elapsed, reading) => OnReadable(cfg, c, elapsed, reading)
  }

  /** The state in which the loop is entered; the transaction id and the server address
      are not yet set, and -r may have given an address to ask for. */
  function Start(xid: Xid, server: Ip, requested: Ip, optN: bool, optB: bool, optF: bool): Client {
    Client(InitSelecting, ListenRaw, true, 0, 0, 0, xid, server, requested, optN, optB, optF, [ScriptDeconfig], None)
  }

  predicate IsStart(c: Client) {
    c == Start(c.xid, c.server, c.requested, c.optN, c.optB, c.optF)
  }

  /** `evs` can happen, one after the other, from `c` on. */
  predicate Possible(cfg: Config, c: Client, evs: seq<Event>)
    decreases |evs|
  {
    evs == [] || (Enabled(c, evs[0]) && Possible(cfg, Turn(cfg, c, evs[0]), evs[1..]))
  }

  function Run(cfg: Config, c: Client, evs: seq<Event>): Client
    decreases |evs|
  {
    if evs == [] then c else Run(cfg, Turn(cfg, c, evs[0]), evs[1..])
  }

  ghost predicate Reachable(cfg: Config, c: Client) {
    exists c0: Client, evs: seq<Event> :: IsStart(c0) && Possible(cfg, c0, evs) && Run(cfg, c0, evs) == c
  }

  lemma StartReachable(cfg: Config, c: Client)
    requires IsStart(c)
    ensures Reachable(cfg, c)
  {
    assert Possible(cfg, c, []) && Run(cfg, c, []) == c;
  }

  lemma {:induction false} RunAppend(cfg: Config, c: Client, evs: seq<Event>, ev: Event)
    requires Possible(cfg, c, evs) && Enabled(Run(cfg, c, evs), ev)
    ensures Possible(cfg, c, evs + [ev]) && Run(cfg, c, evs + [ev]) == Turn(cfg, Run(cfg, c, evs), ev)
    decreases |evs|
  {
    hide Turn, Enabled;
    if evs == [] {
      var d := Turn(cfg, c, ev);
      assert Possible(cfg, d, []) && Run(cfg, d, []) == d;
      assert ([] + [ev])[1..] == [];
    } else {
      assert (evs + [ev])[1..] == evs[1..] + [ev];
      RunAppend(cfg, Turn(cfg, c, evs[0]), evs[1..], ev);
    }
  }

  lemma TurnReachable(cfg: Config, c: Client, ev: Event)
    requires Reachable(cfg, c) && Enabled(c, ev)
    ensures Reachable(cfg, Turn(cfg, c, ev))
  {
    hide Turn, Enabled;
    var c0: Client, evs: seq<Event> :| IsStart(c0) && Possible(cfg, c0, evs) && Run(cfg, c0, evs) == c;
    RunAppend(cfg, c0, evs, ev);
  }
}
