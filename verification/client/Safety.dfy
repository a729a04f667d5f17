/** What every run of the client keeps: the right socket is open in every state, and the
    scripts it runs and the requests it sends fit the interface's configuration. */
module ClientSafety {
  import opened Wrappers
  import opened ClientSpec

  // ----- sockets -----

  function ListenModeOf(s: State): ListenMode {
    match s
    case InitSelecting => ListenRaw
    case Requesting => ListenRaw
    case Rebinding => ListenRaw
    case Renewing => ListenKernel
    case RenewRequested => ListenKernel
    case Bound => ListenNone
    case Released => ListenNone
  }

  /** The listen mode is a function of the state, and a socket is open iff listening. */
  predicate ListenInv(c: Client) {
    c.listen == ListenModeOf(c.state) && (c.socketOpen <==> c.listen != ListenNone)
  }

  /** Rebinding starts in the last minute; without this a renewal signal could leave a
      raw socket under RENEW_REQUESTED. */
  predicate SocketInv(c: Client) {
    ListenInv(c) && (c.state == Rebinding ==> c.timeout <= 60)
  }

  lemma RenewKeepsSockets(c: Client)
    requires c.timeout <= 60 || (ListenInv(c) && c.state != Rebinding)
    ensures SocketInv(Renew(c))
    ensures c.timeout <= 60 ==> SocketInv(Rebind(c))
  {
  }

  lemma TimeoutKeepsSockets(cfg: Config, c: Client, interfaceOk: bool, x: Xid)
    requires SocketInv(c)
    ensures SocketInv(OnTimeout(cfg, c, interfaceOk, x))
  {
    hide Rebind, Renew;
    if interfaceOk {
      var d := c.(waited := 0);
      RenewKeepsSockets(d);
      RenewKeepsSockets(ChangeListenMode(d, ListenKernel).(state := Renewing));
    }
  }

  lemma AckKeepsSockets(cfg: Config, c: Client, m: Message)
    ensures SocketInv(OnAck(cfg, c, m))
  {
    hide ClampedLease;
    assert SocketInv(Decline(cfg, c, m));
    assert Bind(c, m).state == Bound && SocketInv(Bind(c, m));
    hide Decline, Bind;
  }

  lemma MessageKeepsSockets(cfg: Config, c: Client, m: Message)
    requires SocketInv(c)
    ensures SocketInv(OnMessage(cfg, c, m))
  {
    AckKeepsSockets(cfg, c, m);
    assert SocketInv(OnNak(c));
    hide OnAck, OnNak;
  }

  lemma Usr1KeepsSockets(cfg: Config, c: Client)
    requires SocketInv(c)
    ensures SocketInv(OnUsr1(cfg, c))
  {
    hide Renew;
    var d := PerformRenew(c.(waited := 0));
    if d.state == RenewRequested {
      RenewKeepsSockets(if d.timeout > cfg.tryagainTimeout then d.(timeout := cfg.tryagainTimeout) else d);
    }
  }

  lemma TurnKeepsSockets(cfg: Config, c: Client, ev: Event)
    requires SocketInv(c)
    ensures SocketInv(Turn(cfg, c, ev))
  {
    hide OnTimeout, OnMessage, OnUsr1;
    match ev
    case TimedOut(_, ok, x) => TimeoutKeepsSockets(cfg, c, ok, x);
    case SigUsr1(_) => Usr1KeepsSockets(cfg, c);
    case Readable(e, ReadMessage(m)) => MessageKeepsSockets(cfg, c.(waited := AddWaited(c.waited, e)), m);
    case _ =>
  }

  lemma {:induction false} RunKeepsSockets(cfg: Config, c: Client, evs: seq<Event>)
    requires SocketInv(c)
    ensures SocketInv(Run(cfg, c, evs))
    decreases |evs|
  {
    if evs != [] {
      TurnKeepsSockets(cfg, c, evs[0]);
      RunKeepsSockets(cfg, Turn(cfg, c, evs[0]), evs[1..]);
    }
  }

  /** In every reachable state, whatever the command line. */
  lemma SocketsAlwaysFit(cfg: Config, c: Client)
    requires Reachable(cfg, c)
    ensures ListenInv(c) && (c.state == Rebinding ==> c.timeout <= 60)
  {
    var c0: Client, evs: seq<Event> :| IsStart(c0) && Possible(cfg, c0, evs) && Run(cfg, c0, evs) == c;
    RunKeepsSockets(cfg, c0, evs);
  }

  // ----- the configuration of the interface -----

  /** The interface's address after an action, or a breach: an interface that is set up
      twice, renewed without an address, or a request that does not speak for it. */
  function Effect(address: Option<Ip>, a: Action): Option<Option<Ip>> {
    match a
    case ScriptDeconfig => Some(None)
    case ScriptBound(ip) => if address == None then Some(Some(ip)) else None
    case ScriptRenew(ip) => if address != None then Some(Some(ip)) else None
    case ScriptLeaseFail => if address == None then Some(None) else None
    case ScriptNak => Some(address)
    case SendDiscover(_, _) => if address == None then Some(None) else None
    case SendSelect(_, _, _) => if address == None then Some(None) else None
    case SendRenew(_, _, ciaddr) => if address == Some(ciaddr) then Some(address) else None
    case SendRelease(_, ciaddr) => if address == Some(ciaddr) then Some(address) else None
    case SendDecline(_, _) => Some(address)
  }

  /** The address that a log leaves on the interface; None if the log has a breach. */
  function Replay(log: seq<Action>): Option<Option<Ip>> {
    if log == [] then Some(None)
    else match Replay(log[..|log| - 1])
      case None => None
      case Some(address) => Effect(address, log[|log| - 1])
  }

  lemma ReplayNext(log: seq<Action>, a: Action)
    ensures Replay(log + [a]) == match Replay(log) case None => None case Some(x) => Effect(x, a)
  {
    assert (log + [a])[..|log|] == log;
  }

  predicate HasLease(s: State) {
    s == Bound || s == Renewing || s == Rebinding
  }

  predicate Configured(s: State) {
    HasLease(s) || s == RenewRequested
  }

  /** No breach so far, and the interface is configured exactly in the states that stand
      on a lease, with the address that renewals and releases name. */
  predicate Coherent(c: Client) {
    Replay(c.log) == Some(if Configured(c.state) then Some(c.requested) else None)
  }

  /** With a short -A, RENEW_REQUESTED is also never a resting state. */
  predicate CoherenceInv(c: Client) {
    Coherent(c) && c.state != RenewRequested && (c.state == Rebinding ==> c.timeout <= 60)
  }

  /** `c` has just done its last action on an interface with address `address`. */
  predicate LogLeaves(c: Client, address: Option<Ip>) {
    Replay(c.log) == Some(address)
  }

  lemma DoLeaves(c: Client, address: Option<Ip>, a: Action)
    requires LogLeaves(c, address) && Effect(address, a).Some?
    ensures LogLeaves(Do(c, a), Effect(address, a).value)
  {
    ReplayNext(c.log, a);
  }

  /** Renewing with the address in place, at a timeout that ends in rebinding. */
  lemma RenewCoherent(c: Client)
    requires LogLeaves(c, Some(c.requested))
    ensures c.timeout <= 60 || c.state == Renewing ==> CoherenceInv(Renew(c))
    ensures c.timeout <= 60 ==> CoherenceInv(Rebind(c))
  {
    hide Replay;
    DoLeaves(c, Some(c.requested), SendRenew(c.xid, c.server, c.requested));
    var d := ChangeListenMode(c, ListenRaw).(state := Rebinding);
    DoLeaves(d, Some(c.requested), SendRenew(d.xid, 0, d.requested));
    DoLeaves(d, Some(c.requested), ScriptDeconfig);
  }

  lemma LeaseFailCoherent(cfg: Config, c: Client)
    requires CoherenceInv(c) && c.state == InitSelecting
    ensures CoherenceInv(LeaseFail(cfg, c))
  {
    DoLeaves(c, None, ScriptLeaseFail);
  }

  lemma ReleaseCoherent(c: Client)
    requires CoherenceInv(c)
    ensures CoherenceInv(PerformRelease(c)) && PerformRelease(c).state == Released
  {
    hide Replay;
    if HasLease(c.state) {
      DoLeaves(c, Some(c.requested), SendRelease(c.server, c.requested));
      DoLeaves(Do(c, SendRelease(c.server, c.requested)), Some(c.requested), ScriptDeconfig);
    }
  }

  lemma TimeoutCoherent(cfg: Config, c: Client, interfaceOk: bool, x: Xid)
    requires CoherenceInv(c)
    ensures CoherenceInv(OnTimeout(cfg, c, interfaceOk, x))
  {
    hide Rebind, Renew, LeaseFail, PerformRelease, Replay;
    if !interfaceOk {
      ReleaseCoherent(c);
    } else {
      var d := c.(waited := 0);
      match d.state
      case InitSelecting =>
        var e := if d.packetNum == 0 then d.(xid := x) else d;
        DoLeaves(e, None, SendDiscover(e.xid, e.requested));
        LeaseFailCoherent(cfg, d);
      case Requesting =>
        DoLeaves(d, None, SendSelect(d.xid, d.server, d.requested));
        LeaseFailCoherent(cfg, ChangeListenMode(d, ListenRaw).(state := InitSelecting));
      case Bound => RenewCoherent(ChangeListenMode(d, ListenKernel).(state := Renewing));
      case Renewing => RenewCoherent(d);
      case Rebinding => RenewCoherent(d);
      case Released =>
    }
  }

  lemma Usr1Coherent(cfg: Config, c: Client)
    requires CoherenceInv(c) && (cfg.tryagainTimeout <= 60 || !HasLease(c.state))
    ensures CoherenceInv(OnUsr1(cfg, c))
  {
    hide Renew, Replay;
    var d := PerformRenew(c.(waited := 0));
    if d.state == RenewRequested {
      RenewCoherent(if d.timeout > cfg.tryagainTimeout then d.(timeout := cfg.tryagainTimeout) else d);
    }
  }

  lemma DeclineCoherent(cfg: Config, c: Client, m: Message)
    requires CoherenceInv(c) && (c.state == Requesting || c.state == Renewing || c.state == Rebinding)
    ensures CoherenceInv(Decline(cfg, c, m))
  {
    hide Replay;
    var address := if c.state == Requesting then None else Some(c.requested);
    DoLeaves(c, address, SendDecline(c.server, m.yiaddr));
    DoLeaves(Do(c, SendDecline(c.server, m.yiaddr)), address, ScriptDeconfig);
  }

  lemma BindCoherent(c: Client, m: Message)
    requires CoherenceInv(c) && (c.state == Requesting || c.state == Renewing || c.state == Rebinding)
    ensures CoherenceInv(Bind(c, m)) && Bind(c, m).state == Bound
  {
    hide Replay, ClampedLease;
    var address := if c.state == Requesting then None else Some(c.requested);
    var d := c.(timeout := ClampedLease(m.leaseTime) / 2, requested := m.yiaddr);
    DoLeaves(d, address, if c.state == Requesting then ScriptBound(m.yiaddr) else ScriptRenew(m.yiaddr));
  }

  lemma AckCoherent(cfg: Config, c: Client, m: Message)
    requires CoherenceInv(c) && (c.state == Requesting || c.state == Renewing || c.state == Rebinding)
    ensures CoherenceInv(OnAck(cfg, c, m))
  {
    DeclineCoherent(cfg, c, m);
    BindCoherent(c, m);
    ReleaseCoherent(Bind(c, m));
    hide PerformRelease, Replay, Decline, Bind;
  }

  lemma NakCoherent(c: Client)
    requires CoherenceInv(c) && (c.state == Requesting || c.state == Renewing || c.state == Rebinding)
    ensures CoherenceInv(OnNak(c))
  {
    hide Replay;
    var address := if c.state == Requesting then None else Some(c.requested);
    DoLeaves(c, address, ScriptNak);
    DoLeaves(Do(c, ScriptNak), address, ScriptDeconfig);
  }

  lemma TurnCoherent(cfg: Config, c: Client, ev: Event)
    requires CoherenceInv(c) && (cfg.tryagainTimeout <= 60 || !HasLease(c.state))
    ensures CoherenceInv(Turn(cfg, c, ev))
  {
    hide OnTimeout, OnUsr1, OnAck, OnNak, PerformRelease, Replay;
    match ev
    case TimedOut(_, ok, x) => TimeoutCoherent(cfg, c, ok, x);
    case SigUsr1(_) => Usr1Coherent(cfg, c);
    case SigUsr2(_) => ReleaseCoherent(c);
    case SigTerm(_) => ReleaseCoherent(c);
    case Readable(e, ReadMessage(m)) =>
      var d := c.(waited := AddWaited(c.waited, e));
      if d.state == Requesting || d.state == Renewing || d.state == Rebinding {
        AckCoherent(cfg, d, m);
        NakCoherent(d);
      }
    case _ =>
  }

  lemma {:induction false} RunCoherent(cfg: Config, c: Client, evs: seq<Event>)
    requires CoherenceInv(c) && cfg.tryagainTimeout <= 60
    ensures CoherenceInv(Run(cfg, c, evs))
    decreases |evs|
  {
    if evs != [] {
      TurnCoherent(cfg, c, evs[0]);
      RunCoherent(cfg, Turn(cfg, c, evs[0]), evs[1..]);
    }
  }

  /** A client that quits on its first lease, or that never waits for an answer to a
      request, never rests on a lease at all. */
  predicate LeaselessInv(cfg: Config, c: Client) {
    && CoherenceInv(c)
    && (c.exit == None ==> !HasLease(c.state))
    && (cfg.discoverTimeout == 0 && c.state == Requesting ==> c.timeout == 0 && c.waited == 0)
  }

  lemma SearchLeaseless(cfg: Config, c: Client, x: Xid)
    requires c.waited == 0 && c.exit == None
    requires cfg.discoverTimeout == 0 && c.state == Requesting ==> c.timeout == 0
    ensures c.state == InitSelecting ==> Discover(cfg, c, x).state == InitSelecting
    ensures c.state == Requesting ==>
      var c' := Select(cfg, c);
      c'.state == InitSelecting || (c'.state == Requesting && c'.timeout == cfg.discoverTimeout && c'.waited == 0)
  {
  }

  lemma TimeoutLeaseless(cfg: Config, c: Client, interfaceOk: bool, x: Xid)
    requires LeaselessInv(cfg, c) && c.exit == None
    ensures var c' := OnTimeout(cfg, c, interfaceOk, x);
      && (c'.exit == None ==> !HasLease(c'.state))
      && (cfg.discoverTimeout == 0 && c'.state == Requesting ==> c'.timeout == 0 && c'.waited == 0)
  {
    hide Coherent, Replay, Renew, Rebind, LeaseFail;
    SearchLeaseless(cfg, c.(waited := 0), x);
    hide Discover, Select;
  }

  lemma MessageLeaseless(cfg: Config, c: Client, m: Message)
    requires (cfg.quit || cfg.discoverTimeout == 0) && !HasLease(c.state) && c.exit == None
    requires c.state != RenewRequested && !(cfg.discoverTimeout == 0 && c.state == Requesting)
    ensures var c' := OnMessage(cfg, c, m);
      && (c'.exit == None ==> !HasLease(c'.state))
      && (cfg.discoverTimeout == 0 && c'.state == Requesting ==> c'.timeout == 0 && c'.waited == 0)
  {
    assert !HasLease(Decline(cfg, c, m).state) && Decline(cfg, c, m).state != Requesting;
    assert Bind(c, m).state == Bound;
    hide Decline, Bind;
  }

  lemma TurnLeaseless(cfg: Config, c: Client, ev: Event)
    requires cfg.quit || cfg.discoverTimeout == 0
    requires LeaselessInv(cfg, c) && Enabled(c, ev)
    ensures LeaselessInv(cfg, Turn(cfg, c, ev))
  {
    TurnCoherent(cfg, c, ev);
    hide Coherent, Replay, OnTimeout, OnMessage, AddWaited;
    match ev
    case TimedOut(_, ok, x) => TimeoutLeaseless(cfg, c, ok, x);
    case Readable(e, ReadMessage(m)) =>
      if c.listen != ListenNone {
        MessageLeaseless(cfg, c.(waited := AddWaited(c.waited, e)), m);
      }
    case _ =>
  }

  lemma {:induction false} RunLeaseless(cfg: Config, c: Client, evs: seq<Event>)
    requires cfg.quit || cfg.discoverTimeout == 0
    requires LeaselessInv(cfg, c) && Possible(cfg, c, evs)
    ensures LeaselessInv(cfg, Run(cfg, c, evs))
    decreases |evs|
  {
    hide Turn, LeaselessInv, Enabled;
    if evs != [] {
      TurnLeaseless(cfg, c, evs[0]);
      RunLeaseless(cfg, Turn(cfg, c, evs[0]), evs[1..]);
    }
  }

  /** The client can get as far as waiting for an answer to its request. */
  lemma CanRequest(cfg: Config) returns (c: Client)
    requires ValidConfig(cfg) && cfg.discoverTimeout > 0
    ensures Reachable(cfg, c) && CoherenceInv(c) && c.exit == None && c.state == Requesting && c.listen == ListenRaw
    ensures c.timeout == cfg.discoverTimeout && c.waited == 0 && c.xid == 7
  {
    hide Replay, Reachable, Effect;
    var offer := Message(7, true, Some(DHCPOFFER), 1, Some(9), None, true);
    c := Start(0, 0, 0, false, false, true);
    StartReachable(cfg, c);
    StartCoherent(c);
    c := Take(cfg, c, TimedOut(0, true, 7));
    assert c.xid == 7 && c.timeout == cfg.discoverTimeout && c.waited == 0 && c.state == InitSelecting;
    c := Take(cfg, c, Readable(0, ReadMessage(offer)));
    assert c.state == Requesting && c.timeout == 0 && c.waited == 0 && c.packetNum == 0 && c.listen == ListenRaw;
    c := Take(cfg, c, TimedOut(0, true, 7));
  }

  function Acknowledgement(lease: nat): Event {
    Readable(0, ReadMessage(Message(7, true, Some(DHCPACK), 1, Some(9), Some(lease), true)))
  }

  /** The client can get a lease of a thousand seconds. */
  lemma CanBind(cfg: Config) returns (c: Client)
    requires ValidConfig(cfg) && !cfg.quit && cfg.discoverTimeout > 0
    ensures Reachable(cfg, c) && CoherenceInv(c) && c.exit == None
    ensures c.state == Bound && c.timeout == 500 && c.waited == 0
  {
    hide Replay, Reachable, Effect;
    c := CanRequest(cfg);
    c := Take(cfg, c, Acknowledgement(1000));
  }

  lemma StartCoherent(c: Client)
    requires IsStart(c)
    ensures CoherenceInv(c)
  {
    ReplayNext([], ScriptDeconfig);
    assert [] + [ScriptDeconfig] == c.log;
  }

  /** The way to the leak: with -A over a minute, a renewal signal can leave the client
      in RENEW_REQUESTED ... */
  lemma CanRestRequested(cfg: Config) returns (c: Client)
    requires ValidConfig(cfg) && cfg.tryagainTimeout > 60 && !cfg.quit && cfg.discoverTimeout > 0
    ensures Reachable(cfg, c) && c.state == RenewRequested && LogLeaves(c, Some(c.requested))
    ensures 30 <= c.timeout <= 250 && c.waited == 0 && c.exit == None
  {
    hide Replay, Reachable;
    var b := CanBind(cfg);
    var usr1 := SigUsr1(0);
    assert Enabled(b, usr1);
    TurnReachable(cfg, b, usr1);
    DoLeaves(b, Some(b.requested), SendRenew(b.xid, b.server, b.requested));
    c := Turn(cfg, b, usr1);
    assert c.log == Do(b, SendRenew(b.xid, b.server, b.requested)).log && c.requested == b.requested;
  }

  /** ... and the release signal forgets to give that lease up. */
  lemma ReleaseCanLeak(cfg: Config) returns (c: Client)
    requires ValidConfig(cfg) && cfg.tryagainTimeout > 60 && !cfg.quit && cfg.discoverTimeout > 0
    ensures Reachable(cfg, c) && c.state == Released && Replay(c.log) == Some(Some(c.requested))
    ensures c.timeout == INT_MAX && c.waited == 0 && c.exit == None
  {
    hide Replay, Reachable;
    c := CanRestRequested(cfg);
    TurnReachable(cfg, c, SigUsr2(0));
    c := Turn(cfg, c, SigUsr2(0));
  }

  lemma Take(cfg: Config, c: Client, ev: Event) returns (c': Client)
    requires Reachable(cfg, c) && Enabled(c, ev) && CoherenceInv(c) && !HasLease(c.state)
    ensures c' == Turn(cfg, c, ev) && Reachable(cfg, c') && CoherenceInv(c')
  {
    hide Turn, Enabled, CoherenceInv;
    TurnReachable(cfg, c, ev);
    TurnCoherent(cfg, c, ev);
    c' := Turn(cfg, c, ev);
  }

  /** The interface's configuration fits the client's state in every run if and only if
      -A is at most a minute (or the client never rests on a lease). */
  lemma CoherentIff(cfg: Config)
    requires ValidConfig(cfg)
    ensures (forall c: Client | Reachable(cfg, c) :: Coherent(c))
       <==> cfg.tryagainTimeout <= 60 || cfg.quit || cfg.discoverTimeout == 0
  {
    if cfg.tryagainTimeout <= 60 || cfg.quit || cfg.discoverTimeout == 0 {
      forall c: Client | Reachable(cfg, c) ensures Coherent(c) {
        var c0: Client, evs: seq<Event> :| IsStart(c0) && Possible(cfg, c0, evs) && Run(cfg, c0, evs) == c;
        if cfg.tryagainTimeout <= 60 {
          RunCoherent(cfg, c0, evs);
        } else {
          RunLeaseless(cfg, c0, evs);
        }
      }
    } else {
      var c := ReleaseCanLeak(cfg);
      assert Reachable(cfg, c) && !Coherent(c);
    }
  }

  /** The interface has an address, by what the scripts did. */
  predicate Addressed(c: Client) {
    match Replay(c.log)
    case Some(Some(_)) => true
    case _ => false
  }

  lemma ShortTryagainNeverRestsRequested(cfg: Config, c: Client)
    requires cfg.tryagainTimeout <= 60 && Reachable(cfg, c)
    ensures Coherent(c) && c.state != RenewRequested
    ensures Addressed(c) <==> HasLease(c.state)
  {
    var c0: Client, evs: seq<Event> :| IsStart(c0) && Possible(cfg, c0, evs) && Run(cfg, c0, evs) == c;
    RunCoherent(cfg, c0, evs);
  }
}
