/** The event loop of udhcpc_main, with its variables as fields.  `Value` is the state
    that the specification talks about, `ledger` the account of the present lease. */
module ClientLoop {
  import opened Wrappers
  import opened ClientSpec
  import opened ClientSafety
  import opened ClientLease
  import opened ClientTraffic

  class DhcpClient {
    const cfg: Config
    var state: State
    var listenMode: ListenMode
    var socketOpen: bool  // sockfd >= 0
    var timeout: int
    var alreadyWaited: nat
    var packetNum: nat
    var xid: Xid
    var serverAddr: Ip
    var requestedIp: Ip
    var optN: bool
    var optB: bool
    var optF: bool
    var log: seq<Action>
    var exitCode: Option<int>
    ghost var ledger: Ledger

    ghost function Value(): Client
      reads this
    {
      Client(state, listenMode, socketOpen, timeout, alreadyWaited, packetNum, xid, serverAddr, requestedIp,
             optN, optB, optF, log, exitCode)
    }

    /** What holds whenever the loop is at its head. */
    ghost predicate Valid()
      reads this
    {
      && SocketInv(Value())
      && LeaseInv(cfg, Value(), ledger)
      && (cfg.tryagainTimeout <= 60 ==> CoherenceInv(Value()))
    }

    constructor (cfg: Config, xid: Xid, serverAddr: Ip, requestedIp: Ip, optN: bool, optB: bool, optF: bool)
      requires ValidConfig(cfg)
      ensures Value() == Start(xid, serverAddr, requestedIp, optN, optB, optF) && this.cfg == cfg
      ensures ledger == NoLedger && Valid()
    {
      this.cfg, this.xid, this.serverAddr, this.requestedIp := cfg, xid, serverAddr, requestedIp;
      this.optN, this.optB, this.optF := optN, optB, optF;
      state := InitSelecting;
      log, exitCode := [ScriptDeconfig], None;
      listenMode, socketOpen := ListenRaw, true;
      packetNum, timeout, alreadyWaited := 0, 0, 0;
      ledger := NoLedger;
      new;
      StartCoherent(Value());
    }

    method Act(a: Action)
      modifies this`log
      ensures Value() == Do(old(Value()), a)
    {
      log := log + [a];
    }

    method ChangeListenMode(newMode: ListenMode)
      modifies this`listenMode, this`socketOpen
      ensures Value() == ClientSpec.ChangeListenMode(old(Value()), newMode)
    {
      listenMode := newMode;
      if socketOpen {
        socketOpen := false;
      }
      if newMode == ListenKernel {
        socketOpen := true;
      } else if newMode != ListenNone {
        socketOpen := true;
      }
    }

    /** Called on SIGUSR1. */
    method PerformRenew()
      modifies this
      ensures Value() == ClientSpec.PerformRenew(old(Value()))
    {
      match state {
        case Bound =>
          ChangeListenMode(ListenKernel);
          state := RenewRequested;
        case Renewing =>
          state := RenewRequested;
        case Rebinding =>
          state := RenewRequested;
        case RenewRequested =>
          Act(ScriptDeconfig);
          ChangeListenMode(ListenRaw);
          state := InitSelecting;
        case Requesting =>
          ChangeListenMode(ListenRaw);
          state := InitSelecting;
        case Released =>
          ChangeListenMode(ListenRaw);
          state := InitSelecting;
        case InitSelecting =>
      }
    }

    method PerformRelease()
      modifies this
      ensures Value() == ClientSpec.PerformRelease(old(Value()))
    {
      if state == Bound || state == Renewing || state == Rebinding {
        Act(SendRelease(serverAddr, requestedIp));
        Act(ScriptDeconfig);
      }
      ChangeListenMode(ListenNone);
      state := Released;
    }

    /** The code at label ret0. */
    method Leave()
      modifies this
      ensures Value() == ClientSpec.Leave(cfg, old(Value()))
    {
      hide ClientSpec.PerformRelease;
      if cfg.releaseOnExit {
        PerformRelease();
      }
      exitCode := Some(0);
    }

    /** The code at label leasefail. */
    method LeaseFail()
      modifies this
      ensures Value() == ClientSpec.LeaseFail(cfg, old(Value()))
    {
      Act(ScriptLeaseFail);
      if optB {
        optB, optF := false, true;
      } else if optN {
        exitCode := Some(1);
        return;
      }
      timeout := cfg.tryagainTimeout;
      packetNum := 0;
    }

    /** The case REBINDING and what falls into it. */
    method Rebind()
      modifies this
      ensures Value() == ClientSpec.Rebind(old(Value()))
    {
      state := Rebinding;
      ChangeListenMode(ListenRaw);
      if timeout > 0 {
        Act(SendRenew(xid, 0, requestedIp));
        timeout := timeout / 2;
        return;
      }
      Act(ScriptDeconfig);
      state := InitSelecting;
      packetNum := 0;
    }

    /** The code at label case_RENEW_REQUESTED. */
    method Renew()
      modifies this
      ensures Value() == ClientSpec.Renew(old(Value()))
    {
      hide ClientSpec.Rebind;
      if timeout > 60 {
        Act(SendRenew(xid, serverAddr, requestedIp));
        timeout := timeout / 2;
        return;
      }
      Rebind();
    }

    /** The case INIT_SELECTING. */
    method Discover(freshXid: Xid)
      modifies this
      ensures Value() == ClientSpec.Discover(cfg, old(Value()), freshXid)
    {
      hide ClientSpec.LeaseFail;
      if cfg.discoverRetries == 0 || packetNum < cfg.discoverRetries {
        if packetNum == 0 {
          xid := freshXid;
        }
        Act(SendDiscover(xid, requestedIp));
        timeout := cfg.discoverTimeout;
        packetNum := packetNum + 1;
        return;
      }
      LeaseFail();
    }

    /** The case REQUESTING. */
    method Select()
      modifies this
      ensures Value() == ClientSpec.Select(cfg, old(Value()))
    {
      hide ClientSpec.LeaseFail;
      if cfg.discoverRetries == 0 || packetNum < cfg.discoverRetries {
        Act(SendSelect(xid, serverAddr, requestedIp));
        timeout := cfg.discoverTimeout;
        packetNum := packetNum + 1;
        return;
      }
      ChangeListenMode(ListenRaw);
      state := InitSelecting;
      LeaseFail();
    }

    /** The wait is over. */
    method OnTimeout(interfaceOk: bool, freshXid: Xid)
      modifies this
      ensures Value() == ClientSpec.OnTimeout(cfg, old(Value()), interfaceOk, freshXid)
    {
      hide ClientSpec.Discover, ClientSpec.Select, ClientSpec.Renew, ClientSpec.Rebind, ClientSpec.Leave;
      if !interfaceOk {
        Leave();
        return;
      }
      alreadyWaited := 0;
      match state {
        case InitSelecting =>
          Discover(freshXid);
        case Requesting =>
          Select();
        case Bound =>
          state := Renewing;
          ChangeListenMode(ListenKernel);
          Renew();
        case RenewRequested =>
          Renew();
        case Renewing =>
          Renew();
        case Rebinding =>
          Rebind();
        case Released =>
          timeout := INT_MAX;
      }
    }

    method OnUsr1()
      modifies this
      ensures Value() == ClientSpec.OnUsr1(cfg, old(Value()))
    {
      alreadyWaited := 0;
      PerformRenew();
      if state == RenewRequested {
        if timeout > cfg.tryagainTimeout {
          timeout := cfg.tryagainTimeout;
        }
        Renew();
        return;
      }
      packetNum := 0;
      timeout := 0;
    }

    /** The lease time of an acknowledgement, an hour if it names none. */
    method LeaseSeconds(m: Message) returns (leaseSeconds: nat)
      ensures leaseSeconds == ClampedLease(m.leaseTime)
    {
      match m.leaseTime {
        case None =>
          leaseSeconds := 60 * 60;
        case Some(n) =>
          leaseSeconds := n;
          if leaseSeconds < 0x10 {
            leaseSeconds := 0x10;
          }
          if leaseSeconds >= 0x1000_0000 {
            leaseSeconds := 0x0fff_ffff;
          }
      }
    }

    /** Back to square one, as after a refused or a declined address. */
    method Restart(newTimeout: int)
      modifies this
      ensures Value() == ClientSpec.ChangeListenMode(old(Value()), ListenRaw).(
        state := InitSelecting, requested := 0, timeout := newTimeout, packetNum := 0, waited := 0)
    {
      ChangeListenMode(ListenRaw);
      state := InitSelecting;
      requestedIp := 0;
      timeout := newTimeout;
      packetNum := 0;
      alreadyWaited := 0;
    }

    /** The address turned out to be taken. */
    method Decline(m: Message)
      modifies this
      ensures Value() == ClientSpec.Decline(cfg, old(Value()), m)
    {
      Act(SendDecline(serverAddr, m.yiaddr));
      if state != Requesting {
        Act(ScriptDeconfig);
      }
      Restart(cfg.tryagainTimeout);
    }

    /** The address is the client's for the lease time. */
    method Bind(m: Message)
      modifies this
      ensures Value() == ClientSpec.Bind(old(Value()), m)
    {
      var leaseSeconds := LeaseSeconds(m);
      timeout := leaseSeconds / 2;
      requestedIp := m.yiaddr;
      Act(if state == Requesting then ScriptBound(m.yiaddr) else ScriptRenew(m.yiaddr));
      state := Bound;
      ChangeListenMode(ListenNone);
    }

    method OnAck(m: Message)
      modifies this
      ensures Value() == ClientSpec.OnAck(cfg, old(Value()), m)
    {
      hide ClientSpec.Leave, ClientSpec.Decline, ClientSpec.Bind;
      if cfg.arping && !m.addressFree {
        Decline(m);
        return;
      }
      Bind(m);
      if cfg.quit {
        Leave();
        return;
      }
      optN := false;
      if !optF {
        optB, optF := false, true;
      }
      alreadyWaited := 0;
    }

    method OnNak()
      modifies this
      ensures Value() == ClientSpec.OnNak(old(Value()))
    {
      Act(ScriptNak);
      if state != Requesting {
        Act(ScriptDeconfig);
      }
      Restart(0);
    }

    method OnOffer(m: Message)
      modifies this
      ensures Value() == ClientSpec.OnOffer(old(Value()), m)
    {
      serverAddr := 0;
      if m.serverId.Some? {
        serverAddr := m.serverId.value;
      }
      requestedIp := m.yiaddr;
      state := Requesting;
      timeout := 0;
      packetNum := 0;
      alreadyWaited := 0;
    }

    method OnMessage(m: Message)
      modifies this
      ensures Value() == ClientSpec.OnMessage(cfg, old(Value()), m)
    {
      hide ClientSpec.OnOffer, ClientSpec.OnAck, ClientSpec.OnNak;
      if m.xid != xid || !m.forUs || m.kind == None {
        return;
      }
      match state {
        case InitSelecting =>
          if m.kind.value == DHCPOFFER {
            OnOffer(m);
          }
        case Bound =>
        case Released =>
        case _ =>
          if m.kind.value == DHCPACK {
            OnAck(m);
          } else if m.kind.value == DHCPNAK {
            OnNak();
          }
      }
    }

    method OnReadable(elapsed: nat, reading: Reading)
      modifies this
      ensures Value() == ClientSpec.OnReadable(cfg, old(Value()), elapsed, reading)
    {
      if listenMode == ListenNone {
        return;
      }
      var gone := elapsed;
      if reading == ReadError {
        gone := gone + cfg.discoverTimeout;
        ChangeListenMode(listenMode);
      }
      alreadyWaited := AddWaited(alreadyWaited, gone);
      match reading {
        case ReadMessage(m) => OnMessage(m);
        case _ =>
      }
    }

    /** What a turn does once select has returned. */
    method Handle(ev: Event)
      modifies this
      ensures Value() == ClientSpec.Turn(cfg, old(Value()), ev)
    {
      match ev {
        case TimedOut(_, interfaceOk, freshXid) => OnTimeout(interfaceOk, freshXid);
        case Interrupted(elapsed) => alreadyWaited := AddWaited(alreadyWaited, elapsed);
        case Spurious(_) =>
        case SigUsr1(_) => OnUsr1();
        case SigUsr2(_) =>
          PerformRelease();
          timeout := INT_MAX;
        case SigTerm(_) => Leave();
        case Readable(elapsed, reading) => OnReadable(elapsed, reading);
      }
    }

    /** The server, the address and the transaction that the client now works with. */
    ghost function Partner(): Peer
      reads this
    {
      Peer(serverAddr, requestedIp, xid)
    }

    /** One turn of the loop, for any event that select can return with: what the class
        promises is kept, and a lease that the turn ends was not outlived.  What is sent
        names the partner, and the partner is what the event says. */
    method Turn(ev: Event)
      requires Valid() && Enabled(Value(), ev)
      modifies this
      ensures Value() == ClientSpec.Turn(cfg, old(Value()), ev)
      ensures ledger == Charge(cfg, old(Value()), ev, old(ledger))
      ensures Valid() && EndsInTime(old(Value()), Value(), ledger)
      ensures Partner() == Learns(cfg, old(Value()), old(Partner()), ev)
      ensures Speaks(old(Value()), Value(), old(Partner()), Partner(), ev)
    {
      ghost var c, k, p := Value(), ledger, Partner();
      TurnTold(cfg, c, p, ev);
      TurnKeepsSockets(cfg, c, ev);
      TurnKeepsLease(cfg, c, ev, k);
      if cfg.tryagainTimeout <= 60 {
        TurnCoherent(cfg, c, ev);
      }
      hide *;
      Handle(ev);
      ledger := Charge(cfg, c, ev, k);
      assert Value() == ClientSpec.Turn(cfg, c, ev);
      ValidIf();
    }

    lemma ValidSockets()
      requires Valid()
      ensures SocketInv(Value())
    {
    }

    lemma ValidIf()
      requires SocketInv(Value()) && LeaseInv(cfg, Value(), ledger)
      requires cfg.tryagainTimeout <= 60 ==> CoherenceInv(Value())
      ensures Valid()
    {
    }

    /** What `Valid` means for the fields. */
    lemma ValidMeans()
      requires Valid()
      ensures listenMode == ListenModeOf(state) && (socketOpen <==> listenMode != ListenNone)
      ensures Configured(state) && exitCode == None ==>
        ledger.spent + Remaining(Value()) < ledger.lease + ledger.uncounted
      ensures cfg.tryagainTimeout <= 60 ==> state != RenewRequested && (Addressed(Value()) <==> HasLease(state))
    {
      TotalWaitsClosedForm(ledger.lease / 2);
      if cfg.tryagainTimeout <= 60 {
        AddressedOnLease(Value());
      }
    }

    /** The loop, over any events that can happen one after the other: at its head the
        socket is the one that belongs to the state; on a lease the seconds spent and the
        waits still to come stay below the lease time; and with a short -A the interface
        has an address exactly on a lease.  The server, the address and the transaction are
        those that the packets taken have told. */
    method Loop(evs: seq<Event>)
      requires Valid() && Possible(cfg, Value(), evs)
      modifies this
      ensures Value() == ClientSpec.Run(cfg, old(Value()), evs)
      ensures ledger == RunLedger(cfg, old(Value()), old(ledger), evs)
      ensures Valid()
      ensures listenMode == ListenModeOf(state) && (socketOpen <==> listenMode != ListenNone)
      ensures Configured(state) && exitCode == None ==>
        ledger.spent + Remaining(Value()) < ledger.lease + ledger.uncounted
      ensures cfg.tryagainTimeout <= 60 ==> state != RenewRequested && (Addressed(Value()) <==> HasLease(state))
      ensures Partner() == Told(cfg, old(Value()), evs)
    {
      hide Enabled, ClientSpec.Turn, Charge, Valid, EndsInTime, Remaining, Addressed, ListenModeOf, HasLease, Configured;
      ghost var c0, k0 := Value(), ledger;
      assert SocketInv(c0) by { ValidSockets(); }
      assert evs[0..] == evs;
      for i := 0 to |evs|
        invariant Valid() && Possible(cfg, Value(), evs[i..])
        invariant ClientSpec.Run(cfg, Value(), evs[i..]) == ClientSpec.Run(cfg, c0, evs)
        invariant RunLedger(cfg, Value(), ledger, evs[i..]) == RunLedger(cfg, c0, k0, evs)
      {
        assert evs[i..][0] == evs[i] && evs[i..][1..] == evs[i + 1..];
        Turn(evs[i]);
      }
      assert evs[|evs|..] == [];
      ValidMeans();
      TellLoop(c0, evs);
    }

    lemma TellLoop(c0: Client, evs: seq<Event>)
      requires SocketInv(c0) && Value() == ClientSpec.Run(cfg, c0, evs)
      ensures Partner() == Told(cfg, c0, evs)
    {
      RunTold(cfg, c0, evs);
    }
  }
}
