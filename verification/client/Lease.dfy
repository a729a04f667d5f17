/** How long the client stays on a lease: the waits it asks for after an acknowledgement
    halve from half the lease time down, and no event lengthens what is left of them. */
module ClientLease {
  import opened Wrappers
  import opened ClientSpec
  import opened ClientSafety

  /** The waits from `t` on: t + t/2 + t/4 + ... + 1. */
  function TotalWaits(t: nat): nat {
    if t == 0 then 0 else t + TotalWaits(t / 2)
  }

  function OneBits(t: nat): nat {
    if t == 0 then 0 else t % 2 + OneBits(t / 2)
  }

  lemma {:induction false} TotalWaitsClosedForm(t: nat)
    ensures TotalWaits(t) + OneBits(t) == 2 * t
    ensures t > 0 ==> OneBits(t) > 0
  {
    if t > 0 {
      TotalWaitsClosedForm(t / 2);
      assert t == 2 * (t / 2) + t % 2;
    }
  }

  lemma {:induction false} TotalWaitsMonotone(s: nat, t: nat)
    requires s <= t
    ensures TotalWaits(s) <= TotalWaits(t)
  {
    if s > 0 {
      TotalWaitsMonotone(s / 2, t / 2);
    }
  }

  /** The waits left before the lease is given up, unless something happens. */
  function Remaining(c: Client): nat {
    if c.timeout < 0 then 0
    else (if c.waited < c.timeout then c.timeout - c.waited else 0) + TotalWaits(c.timeout / 2)
  }

  /** Timer variables stay in range, so that the C subtraction is exact. */
  predicate TimerInv(cfg: Config, c: Client) {
    && ValidConfig(cfg)
    && 0 <= c.timeout <= INT_MAX
    && (c.exit == None ==> c.waited <= c.timeout + cfg.discoverTimeout)
  }

  lemma WaitExact(cfg: Config, c: Client)
    requires TimerInv(cfg, c) && c.exit == None
    ensures Wait(c.timeout, c.waited) == c.timeout - c.waited
  {
  }

  /** The seconds since the last acknowledgement: `spent` in all, of which `uncounted`
      were not charged to the timer, because the pause after a read error ran past the
      wait or select returned for nothing. */
  datatype Ledger = Ledger(spent: nat, uncounted: nat, lease: nat)

  /** The lease time that an event brings, if it is an acknowledgement that is taken. */
  function NewLease(cfg: Config, c: Client, ev: Event): Option<nat> {
    if ev.Readable? && c.listen != ListenNone && ev.reading.ReadMessage? then
      var m := ev.reading.message;
      if && m.xid == c.xid && m.forUs && m.kind == Some(DHCPACK)
         && c.state != InitSelecting && c.state != Bound && c.state != Released
         && !(cfg.arping && !m.addressFree)
      then Some(ClampedLease(m.leaseTime)) else None
    else None
  }

  predicate ReadFailed(c: Client, ev: Event) {
    ev.Readable? && c.listen != ListenNone && ev.reading.ReadError?
  }

  /** The time that an event takes: the stay in select and the pause after a read error. */
  function Duration(cfg: Config, c: Client, ev: Event): nat {
    ev.elapsed + if ReadFailed(c, ev) then cfg.discoverTimeout else 0
  }

  function Uncounted(cfg: Config, c: Client, ev: Event): nat {
    if ReadFailed(c, ev) then
      var over := c.waited + Duration(cfg, c, ev) - c.timeout;
      if over > 0 then over else 0
    else if ev.Spurious? || (ev.Readable? && c.listen == ListenNone) then ev.elapsed
    else 0
  }

  function Charge(cfg: Config, c: Client, ev: Event, k: Ledger): Ledger {
    match NewLease(cfg, c, ev)
    case Some(lease) => Ledger(0, 0, lease)
    case None => Ledger(k.spent + Duration(cfg, c, ev), k.uncounted + Uncounted(cfg, c, ev), k.lease)
  }

  function Budget(k: Ledger): nat {
    TotalWaits(k.lease / 2)
  }

  /** On a lease, the time spent and the waits still to come stay within the budget. */
  predicate LeaseInv(cfg: Config, c: Client, k: Ledger) {
    && TimerInv(cfg, c)
    && (Configured(c.state) && c.exit == None ==>
          16 <= k.lease && k.spent + Remaining(c) <= Budget(k) + k.uncounted)
  }

  /** The last turn on a lease, too, ends within the budget. */
  predicate EndsInTime(c: Client, c': Client, k': Ledger) {
    Configured(c.state) && !Configured(c'.state) ==> 16 <= k'.lease && k'.spent <= Budget(k') + k'.uncounted
  }

  // ----- the timer -----

  lemma AddWaitedExact(waited: nat, more: nat)
    requires waited + more < TWO_32
    ensures AddWaited(waited, more) == waited + more
  {
  }

  lemma RenewTimer(c: Client)
    requires c.timeout >= 0
    ensures Renew(c).timeout == Rebind(c).timeout == c.timeout / 2
    ensures Renew(c).waited == Rebind(c).waited == c.waited
    ensures Renew(c).exit == Rebind(c).exit == c.exit
  {
  }

  lemma ReleaseTimer(c: Client)
    ensures PerformRelease(c).timeout == c.timeout && PerformRelease(c).waited == c.waited
    ensures PerformRelease(c).exit == c.exit
  {
  }

  lemma SearchTimer(cfg: Config, c: Client, x: Xid)
    requires TimerInv(cfg, c) && c.exit == None && c.waited == 0
    ensures TimerInv(cfg, Discover(cfg, c, x)) && TimerInv(cfg, Select(cfg, c))
  {
  }

  lemma TimeoutKeepsTimer(cfg: Config, c: Client, interfaceOk: bool, x: Xid)
    requires TimerInv(cfg, c) && c.exit == None
    ensures TimerInv(cfg, OnTimeout(cfg, c, interfaceOk, x))
  {
    hide Renew, Rebind, PerformRelease, Discover, Select;
    ReleaseTimer(c);
    SearchTimer(cfg, c.(waited := 0), x);
    var d := c.(waited := 0);
    RenewTimer(d);
    RenewTimer(ChangeListenMode(d, ListenKernel).(state := Renewing));
  }

  lemma PerformRenewTimer(c: Client)
    ensures PerformRenew(c).timeout == c.timeout && PerformRenew(c).waited == c.waited
    ensures PerformRenew(c).exit == c.exit
  {
  }

  lemma Usr1KeepsTimer(cfg: Config, c: Client)
    requires TimerInv(cfg, c) && c.exit == None
    ensures TimerInv(cfg, OnUsr1(cfg, c))
  {
    hide Renew, Rebind, PerformRenew;
    PerformRenewTimer(c.(waited := 0));
    var d := PerformRenew(c.(waited := 0));
    RenewTimer(d);
    RenewTimer(d.(timeout := cfg.tryagainTimeout));
  }

  lemma AckKeepsTimer(cfg: Config, c: Client, m: Message)
    requires TimerInv(cfg, c)
    ensures TimerInv(cfg, OnAck(cfg, c, m))
  {
    assert 0 <= ClampedLease(m.leaseTime) / 2 <= INT_MAX;
    hide ClampedLease;
  }

  lemma MessageKeepsTimer(cfg: Config, c: Client, m: Message)
    requires TimerInv(cfg, c)
    ensures TimerInv(cfg, OnMessage(cfg, c, m))
  {
    AckKeepsTimer(cfg, c, m);
    hide OnAck;
  }

  lemma ReadableKeepsTimer(cfg: Config, c: Client, elapsed: nat, reading: Reading)
    requires TimerInv(cfg, c) && c.waited + elapsed <= c.timeout
    ensures TimerInv(cfg, OnReadable(cfg, c, elapsed, reading))
  {
    hide AddWaited, OnMessage;
    match reading
    case ReadError => AddWaitedExact(c.waited, elapsed + cfg.discoverTimeout);
    case ReadIgnored => AddWaitedExact(c.waited, elapsed);
    case ReadMessage(m) =>
      AddWaitedExact(c.waited, elapsed);
      MessageKeepsTimer(cfg, c.(waited := c.waited + elapsed), m);
  }

  lemma TurnKeepsTimer(cfg: Config, c: Client, ev: Event)
    requires TimerInv(cfg, c) && Enabled(c, ev)
    ensures TimerInv(cfg, Turn(cfg, c, ev))
  {
    WaitExact(cfg, c);
    hide Wait, AddWaited, OnTimeout, OnReadable, OnUsr1, PerformRelease;
    match ev
    case TimedOut(_, ok, x) => TimeoutKeepsTimer(cfg, c, ok, x);
    case Interrupted(e) => AddWaitedExact(c.waited, e);
    case Spurious(_) =>
    case SigUsr1(_) => Usr1KeepsTimer(cfg, c);
    case SigUsr2(_) => ReleaseTimer(c);
    case SigTerm(_) => ReleaseTimer(c);
    case Readable(e, r) => ReadableKeepsTimer(cfg, c, e, r);
  }

  // ----- one turn on a lease -----

  /** The wait that select was asked for, as it was left when the event came. */
  lemma EventInTime(cfg: Config, c: Client, ev: Event)
    requires TimerInv(cfg, c) && Enabled(c, ev)
    ensures ev.elapsed + TotalWaits(c.timeout / 2) <= Remaining(c)
    ensures ev.TimedOut? ==> ev.elapsed + TotalWaits(c.timeout / 2) == Remaining(c)
  {
    WaitExact(cfg, c);
  }

  lemma RenewSpends(c: Client)
    requires 0 <= c.timeout && c.waited == 0
    ensures Remaining(Renew(c)) == Remaining(Rebind(c)) == TotalWaits(c.timeout / 2)
  {
    RenewTimer(c);
    hide Renew, Rebind;
  }

  lemma TimeoutSpends(cfg: Config, c: Client, x: Xid)
    requires TimerInv(cfg, c) && Configured(c.state)
    ensures Remaining(OnTimeout(cfg, c, true, x)) == TotalWaits(c.timeout / 2)
  {
    hide Renew, Rebind;
    var d := c.(waited := 0);
    RenewSpends(d);
    RenewSpends(ChangeListenMode(d, ListenKernel).(state := Renewing));
  }

  lemma Usr1Spends(cfg: Config, c: Client)
    requires TimerInv(cfg, c) && Configured(c.state)
    ensures Remaining(OnUsr1(cfg, c)) <= TotalWaits(c.timeout / 2)
  {
    var d := PerformRenew(c.(waited := 0));
    PerformRenewTimer(c.(waited := 0));
    assert TotalWaits(0) == 0;
    hide Renew, Rebind, PerformRenew, TotalWaits;
    RenewSpends(d);
    RenewSpends(d.(timeout := cfg.tryagainTimeout));
    if d.timeout > cfg.tryagainTimeout {
      TotalWaitsMonotone(cfg.tryagainTimeout / 2, c.timeout / 2);
    }
  }

  /** What is left after a turn, when the turn brings no new lease. */
  lemma TurnSpends(cfg: Config, c: Client, ev: Event)
    requires TimerInv(cfg, c) && Enabled(c, ev) && Configured(c.state) && NewLease(cfg, c, ev) == None
    ensures ev.elapsed <= Remaining(c)
    ensures Configured(Turn(cfg, c, ev).state) && Turn(cfg, c, ev).exit == None ==>
      Duration(cfg, c, ev) + Remaining(Turn(cfg, c, ev)) <= Remaining(c) + Uncounted(cfg, c, ev)
    ensures !Configured(Turn(cfg, c, ev).state) ==> Uncounted(cfg, c, ev) == 0 && Duration(cfg, c, ev) == ev.elapsed
  {
    EventInTime(cfg, c, ev);
    WaitExact(cfg, c);
    hide Wait, AddWaited, OnTimeout, OnReadable, OnUsr1, PerformRelease, TotalWaits, NewLease;
    match ev
    case TimedOut(_, ok, x) =>
      if ok { TimeoutSpends(cfg, c, x); } else { LeaveExits(cfg, c, x); }
    case Interrupted(e) => AddWaitedExact(c.waited, e);
    case Spurious(_) =>
    case SigUsr1(_) => Usr1Spends(cfg, c);
    case SigUsr2(_) => ReleaseEnds(c);
    case SigTerm(_) =>
    case Readable(e, r) => ReadableSpends(cfg, c, ev);
  }

  lemma ReadableSpends(cfg: Config, c: Client, ev: Event)
    requires TimerInv(cfg, c) && Configured(c.state) && NewLease(cfg, c, ev) == None
    requires ev.Readable? && c.waited + ev.elapsed <= c.timeout && c.exit == None
    ensures Configured(Turn(cfg, c, ev).state) ==>
      Duration(cfg, c, ev) + Remaining(Turn(cfg, c, ev)) <= Remaining(c) + Uncounted(cfg, c, ev)
    ensures !Configured(Turn(cfg, c, ev).state) ==> Uncounted(cfg, c, ev) == 0 && Duration(cfg, c, ev) == ev.elapsed
  {
    hide Wait, AddWaited, OnMessage, TotalWaits;
    if c.listen != ListenNone {
      match ev.reading
      case ReadError => AddWaitedExact(c.waited, Duration(cfg, c, ev));
      case ReadIgnored => AddWaitedExact(c.waited, ev.elapsed);
      case ReadMessage(m) =>
        AddWaitedExact(c.waited, ev.elapsed);
        MessageSpends(cfg, c.(waited := c.waited + ev.elapsed), m);
    }
  }

  lemma LeaveExits(cfg: Config, c: Client, x: Xid)
    ensures OnTimeout(cfg, c, false, x).exit == Some(0)
  {
  }

  lemma ReleaseEnds(c: Client)
    ensures PerformRelease(c).state == Released
  {
  }

  /** A message that brings no new lease leaves the timer alone or ends the lease. */
  lemma MessageSpends(cfg: Config, c: Client, m: Message)
    requires Configured(c.state)
    requires m.xid == c.xid && m.forUs && m.kind == Some(DHCPACK) && c.state != Bound ==> cfg.arping && !m.addressFree
    ensures OnMessage(cfg, c, m) == c || !Configured(OnMessage(cfg, c, m).state)
  {
  }

  lemma AckStartsLease(cfg: Config, c: Client, ev: Event)
    requires NewLease(cfg, c, ev).Some?
    ensures var c' := Turn(cfg, c, ev);
      var lease := NewLease(cfg, c, ev).value;
      16 <= lease && (c'.exit == None ==> c'.state == Bound && Remaining(c') == TotalWaits(lease / 2))
  {
    hide AddWaited, PerformRelease;
  }

  lemma SearchBringsNone(cfg: Config, c: Client, x: Xid)
    ensures c.state == InitSelecting ==> !Configured(Discover(cfg, c, x).state)
    ensures c.state == Requesting ==> !Configured(Select(cfg, c).state)
  {
  }

  lemma TimeoutBringsNone(cfg: Config, c: Client, interfaceOk: bool, x: Xid)
    requires !Configured(c.state)
    ensures !Configured(OnTimeout(cfg, c, interfaceOk, x).state)
  {
    ReleaseEnds(c);
    hide PerformRelease, Renew, Rebind, LeaseFail, Discover, Select;
    SearchBringsNone(cfg, c.(waited := 0), x);
  }

  lemma Usr1BringsNone(cfg: Config, c: Client)
    requires !Configured(c.state)
    ensures !Configured(OnUsr1(cfg, c).state)
  {
    hide Renew;
  }

  lemma MessageBringsNone(cfg: Config, c: Client, m: Message)
    requires !Configured(c.state)
    requires m.xid == c.xid && m.forUs && m.kind == Some(DHCPACK) && c.state == Requesting ==> cfg.arping && !m.addressFree
    ensures !Configured(OnMessage(cfg, c, m).state)
  {
  }

  lemma OnlyAcksBring(cfg: Config, c: Client, ev: Event)
    requires !Configured(c.state) && NewLease(cfg, c, ev) == None
    ensures !Configured(Turn(cfg, c, ev).state)
  {
    hide AddWaited, PerformRelease, OnTimeout, OnMessage, OnUsr1;
    ReleaseEnds(c);
    match ev
    case SigUsr1(_) => Usr1BringsNone(cfg, c);
    case TimedOut(_, ok, x) => TimeoutBringsNone(cfg, c, ok, x);
    case Readable(e, r) =>
      if c.listen != ListenNone && r.ReadMessage? {
        MessageBringsNone(cfg, c.(waited := AddWaited(c.waited, e)), r.message);
      }
    case _ =>
  }

  /** One turn keeps the ledger, and if it ends the lease, it ends it in time. */
  lemma TurnKeepsLease(cfg: Config, c: Client, ev: Event, k: Ledger)
    requires LeaseInv(cfg, c, k) && Enabled(c, ev)
    ensures LeaseInv(cfg, Turn(cfg, c, ev), Charge(cfg, c, ev, k))
    ensures EndsInTime(c, Turn(cfg, c, ev), Charge(cfg, c, ev, k))
  {
    TurnKeepsTimer(cfg, c, ev);
    if NewLease(cfg, c, ev).Some? {
      AckStartsLease(cfg, c, ev);
    } else if Configured(c.state) {
      TurnSpends(cfg, c, ev);
    } else {
      OnlyAcksBring(cfg, c, ev);
    }
    hide Turn, Enabled, TimerInv, NewLease, Duration, Uncounted, Remaining, TotalWaits;
  }

  // ----- whole runs -----

  function RunLedger(cfg: Config, c: Client, k: Ledger, evs: seq<Event>): Ledger
    decreases |evs|
  {
    if evs == [] then k
    else RunLedger(cfg, Turn(cfg, c, evs[0]), Charge(cfg, c, evs[0], k), evs[1..])
  }

  lemma {:induction false} RunKeepsLease(cfg: Config, c: Client, k: Ledger, evs: seq<Event>)
    requires LeaseInv(cfg, c, k) && Possible(cfg, c, evs)
    ensures LeaseInv(cfg, Run(cfg, c, evs), RunLedger(cfg, c, k, evs))
    decreases |evs|
  {
    hide Turn, Enabled, LeaseInv, Charge;
    if evs != [] {
      TurnKeepsLease(cfg, c, evs[0], k);
      RunKeepsLease(cfg, Turn(cfg, c, evs[0]), Charge(cfg, c, evs[0], k), evs[1..]);
    }
  }

  /** What the lease promises at an event of a run: on a lease the seconds since its
      acknowledgement (less the uncounted ones) stay below the lease time through the
      event, and if the event ends the lease, it ends below it, too. */
  predicate WithinLease(cfg: Config, c0: Client, evs: seq<Event>, ev: Event) {
    var c, k := Run(cfg, c0, evs), RunLedger(cfg, c0, NoLedger, evs);
    var k' := Charge(cfg, c, ev, k);
    && k.spent + ev.elapsed < k.lease + k.uncounted
    && (!Configured(Turn(cfg, c, ev).state) ==> k'.spent < k'.lease + k'.uncounted)
  }

  const NoLedger := Ledger(0, 0, 0)

  /** However a run goes on from its start, with any command line: no state that stands
      on a lease outlives it. */
  lemma LeaseNeverOutlived(cfg: Config, c0: Client, evs: seq<Event>, ev: Event)
    requires ValidConfig(cfg) && IsStart(c0) && Possible(cfg, c0, evs)
    requires Enabled(Run(cfg, c0, evs), ev) && Configured(Run(cfg, c0, evs).state)
    ensures WithinLease(cfg, c0, evs, ev)
  {
    var c, k := Run(cfg, c0, evs), RunLedger(cfg, c0, NoLedger, evs);
    RunKeepsLease(cfg, c0, NoLedger, evs);
    TurnKeepsLease(cfg, c, ev, k);
    EventInTime(cfg, c, ev);
    TotalWaitsClosedForm(k.lease / 2);
    TotalWaitsClosedForm(Charge(cfg, c, ev, k).lease / 2);
    hide Run, RunLedger, Possible, Turn, Enabled, OneBits, TotalWaits, Charge, Remaining;
  }

  // ----- the address -----

  lemma AddressedOnLease(c: Client)
    requires CoherenceInv(c)
    ensures Addressed(c) <==> HasLease(c.state)
  {
  }

  /** Leases are at most 0x0fffffff seconds, and no more goes uncounted than is spent. */
  predicate Plausible(k: Ledger) {
    k.lease <= 0x0fff_ffff && k.uncounted <= k.spent
  }

  lemma TurnPlausible(cfg: Config, c: Client, ev: Event, k: Ledger)
    requires TimerInv(cfg, c) && Enabled(c, ev) && Plausible(k)
    ensures Plausible(Charge(cfg, c, ev, k))
  {
    WaitExact(cfg, c);
    hide Wait;
  }

  lemma {:induction false} RunPlausible(cfg: Config, c: Client, k: Ledger, evs: seq<Event>)
    requires TimerInv(cfg, c) && Plausible(k) && Possible(cfg, c, evs)
    ensures Plausible(RunLedger(cfg, c, k, evs))
    decreases |evs|
  {
    hide Turn, Enabled, TimerInv, Plausible, Charge;
    if evs != [] {
      TurnKeepsTimer(cfg, c, evs[0]);
      TurnPlausible(cfg, c, evs[0], k);
      RunPlausible(cfg, Turn(cfg, c, evs[0]), Charge(cfg, c, evs[0], k), evs[1..]);
    }
  }

  /** In every run the interface's address stays within its lease. */
  ghost predicate AddressesKeepLeases(cfg: Config) {
    forall c0: Client, evs: seq<Event>, ev: Event
      | IsStart(c0) && Possible(cfg, c0, evs) && Enabled(Run(cfg, c0, evs), ev) && Addressed(Run(cfg, c0, evs)) ::
      WithinLease(cfg, c0, evs, ev)
  }

  /** That is so if and only if -A is at most a minute (or the client never rests on a
      lease): otherwise a leaked address stays for good. */
  lemma AddressesKeepLeasesIff(cfg: Config)
    requires ValidConfig(cfg)
    ensures AddressesKeepLeases(cfg) <==> cfg.tryagainTimeout <= 60 || cfg.quit || cfg.discoverTimeout == 0
  {
    hide WithinLease, Addressed, Configured;
    if cfg.tryagainTimeout <= 60 || cfg.quit || cfg.discoverTimeout == 0 {
      forall c0: Client, evs: seq<Event>, ev: Event
        | IsStart(c0) && Possible(cfg, c0, evs) && Enabled(Run(cfg, c0, evs), ev) && Addressed(Run(cfg, c0, evs))
        ensures WithinLease(cfg, c0, evs, ev)
      {
        AddressedStates(cfg, c0, evs);
        LeaseNeverOutlived(cfg, c0, evs, ev);
      }
    } else {
      LeakOutlives(cfg);
    }
  }

  lemma AddressedStates(cfg: Config, c0: Client, evs: seq<Event>)
    requires cfg.tryagainTimeout <= 60 || cfg.quit || cfg.discoverTimeout == 0
    requires IsStart(c0) && Possible(cfg, c0, evs) && Addressed(Run(cfg, c0, evs))
    ensures Configured(Run(cfg, c0, evs).state)
  {
    StartCoherent(c0);
    if cfg.tryagainTimeout <= 60 {
      RunCoherent(cfg, c0, evs);
    } else {
      RunLeaseless(cfg, c0, evs);
    }
    AddressedOnLease(Run(cfg, c0, evs));
  }

  /** The leaked address is still there after more than any lease time. */
  lemma LeakOutlives(cfg: Config)
    requires ValidConfig(cfg) && cfg.tryagainTimeout > 60 && !cfg.quit && cfg.discoverTimeout > 0
    ensures !AddressesKeepLeases(cfg)
  {
    var c := ReleaseCanLeak(cfg);
    var c0: Client, evs: seq<Event> :| IsStart(c0) && Possible(cfg, c0, evs) && Run(cfg, c0, evs) == c;
    var ev := TimedOut(INT_MAX, true, 0);
    assert Enabled(c, ev) && Addressed(c);
    RunPlausible(cfg, c0, NoLedger, evs);
    assert !WithinLease(cfg, c0, evs, ev);
  }

  // ----- seconds that the timer does not see -----

  /** Only a select that returns for nothing and a pause after a read error go uncounted,
      and of a pause no more than its length. */
  lemma UncountedAtMost(cfg: Config, c: Client, ev: Event)
    requires TimerInv(cfg, c) && Enabled(c, ev)
    ensures Uncounted(cfg, c, ev) <= Duration(cfg, c, ev)
    ensures ReadFailed(c, ev) ==> Uncounted(cfg, c, ev) <= cfg.discoverTimeout
    ensures Uncounted(cfg, c, ev) > 0 ==> ReadFailed(c, ev) || ev.Spurious? || (ev.Readable? && c.listen == ListenNone)
  {
    WaitExact(cfg, c);
    hide Wait;
  }

  /** The pause after an event, if it is a read error, or the time of a select that
      returned for nothing. */
  function PauseOrIdle(cfg: Config, c: Client, ev: Event): nat {
    if ReadFailed(c, ev) then cfg.discoverTimeout
    else if ev.Spurious? || (ev.Readable? && c.listen == ListenNone) then ev.elapsed
    else 0
  }

  function PausesAndIdleTime(cfg: Config, c: Client, evs: seq<Event>): nat
    decreases |evs|
  {
    if evs == [] then 0
    else PauseOrIdle(cfg, c, evs[0]) + PausesAndIdleTime(cfg, Turn(cfg, c, evs[0]), evs[1..])
  }

  lemma ChargedAtMost(cfg: Config, c: Client, ev: Event, k: Ledger)
    requires TimerInv(cfg, c) && Enabled(c, ev)
    ensures Charge(cfg, c, ev, k).uncounted <= k.uncounted + PauseOrIdle(cfg, c, ev)
  {
    UncountedAtMost(cfg, c, ev);
    hide Enabled, TimerInv, NewLease, Duration;
  }

  /** What goes uncounted in a run is at most a pause for each read error and the time of
      the selects that return for nothing. */
  lemma {:induction false} RunUncounted(cfg: Config, c: Client, k: Ledger, evs: seq<Event>)
    requires TimerInv(cfg, c) && Possible(cfg, c, evs)
    ensures RunLedger(cfg, c, k, evs).uncounted <= k.uncounted + PausesAndIdleTime(cfg, c, evs)
    decreases |evs|
  {
    hide Turn, TimerInv, Enabled, Charge, PauseOrIdle;
    if evs != [] {
      TurnKeepsTimer(cfg, c, evs[0]);
      ChargedAtMost(cfg, c, evs[0], k);
      RunUncounted(cfg, Turn(cfg, c, evs[0]), Charge(cfg, c, evs[0], k), evs[1..]);
    }
  }

  /** By the clock a lease is outlived by at most that, whatever the command line. */
  lemma OverrunAtMost(cfg: Config, c0: Client, evs: seq<Event>, ev: Event)
    requires ValidConfig(cfg) && IsStart(c0) && Possible(cfg, c0, evs)
    requires Enabled(Run(cfg, c0, evs), ev) && Configured(Run(cfg, c0, evs).state)
    ensures var k := RunLedger(cfg, c0, NoLedger, evs);
      k.spent + ev.elapsed < k.lease + PausesAndIdleTime(cfg, c0, evs)
  {
    LeaseNeverOutlived(cfg, c0, evs, ev);
    RunUncounted(cfg, c0, NoLedger, evs);
    hide Run, RunLedger, Possible, Enabled, Turn, PausesAndIdleTime, Charge;
  }

  /** A run in which no second goes uncounted. */
  predicate Steady(cfg: Config, c: Client, evs: seq<Event>)
    decreases |evs|
  {
    evs == [] || (Uncounted(cfg, c, evs[0]) == 0 && Steady(cfg, Turn(cfg, c, evs[0]), evs[1..]))
  }

  lemma {:induction false} SteadyUncounted(cfg: Config, c: Client, k: Ledger, evs: seq<Event>)
    requires Steady(cfg, c, evs) && k.uncounted == 0
    ensures RunLedger(cfg, c, k, evs).uncounted == 0
    decreases |evs|
  {
    hide Turn, Uncounted, Duration, NewLease;
    if evs != [] {
      SteadyUncounted(cfg, Turn(cfg, c, evs[0]), Charge(cfg, c, evs[0], k), evs[1..]);
    }
  }

  /** In such a run a lease ends before its time by the clock, whatever the command line. */
  lemma SteadyLeaseNeverOutlived(cfg: Config, c0: Client, evs: seq<Event>, ev: Event)
    requires ValidConfig(cfg) && IsStart(c0) && Possible(cfg, c0, evs) && Steady(cfg, c0, evs)
    requires Enabled(Run(cfg, c0, evs), ev) && Configured(Run(cfg, c0, evs).state)
    ensures var k := RunLedger(cfg, c0, NoLedger, evs);
      k.spent + ev.elapsed < k.lease
  {
    LeaseNeverOutlived(cfg, c0, evs, ev);
    SteadyUncounted(cfg, c0, NoLedger, evs);
  }

  /** `c` can be reached with the ledger `k`. */
  ghost predicate Accounted(cfg: Config, c: Client, k: Ledger) {
    exists c0: Client, evs: seq<Event> ::
      IsStart(c0) && Possible(cfg, c0, evs) && Run(cfg, c0, evs) == c && RunLedger(cfg, c0, NoLedger, evs) == k
  }

  lemma {:induction false} LedgerAppend(cfg: Config, c: Client, k: Ledger, evs: seq<Event>, ev: Event)
    ensures RunLedger(cfg, c, k, evs + [ev]) == Charge(cfg, Run(cfg, c, evs), ev, RunLedger(cfg, c, k, evs))
    decreases |evs|
  {
    hide Turn, Charge;
    if evs == [] {
      assert ([] + [ev])[1..] == [];
    } else {
      assert (evs + [ev])[1..] == evs[1..] + [ev];
      LedgerAppend(cfg, Turn(cfg, c, evs[0]), Charge(cfg, c, evs[0], k), evs[1..], ev);
    }
  }

  lemma TurnAccounted(cfg: Config, c: Client, k: Ledger, ev: Event)
    requires Accounted(cfg, c, k) && Enabled(c, ev)
    ensures Accounted(cfg, Turn(cfg, c, ev), Charge(cfg, c, ev, k))
  {
    hide Turn, Enabled, Charge;
    var c0: Client, evs: seq<Event> :|
      IsStart(c0) && Possible(cfg, c0, evs) && Run(cfg, c0, evs) == c && RunLedger(cfg, c0, NoLedger, evs) == k;
    RunAppend(cfg, c0, evs, ev);
    LedgerAppend(cfg, c0, NoLedger, evs, ev);
  }

  lemma ReachableAccounted(cfg: Config, c: Client) returns (k: Ledger)
    requires Reachable(cfg, c)
    ensures Accounted(cfg, c, k)
  {
    var c0: Client, evs: seq<Event> :| IsStart(c0) && Possible(cfg, c0, evs) && Run(cfg, c0, evs) == c;
    k := RunLedger(cfg, c0, NoLedger, evs);
  }

  /** Rebinding with a read error at the end of the wait: the pause goes on top of it. */
  lemma PausedWait(cfg: Config, c: Client, k: Ledger) returns (c': Client, k': Ledger)
    requires ValidConfig(cfg) && Accounted(cfg, c, k)
    requires c.state == Rebinding && c.listen == ListenRaw && c.exit == None && c.waited == 0 && 0 < c.timeout <= 60
    ensures Accounted(cfg, c', k')
    ensures c'.state == Rebinding && c'.listen == ListenRaw && c'.exit == None && c'.waited == 0
    ensures c'.timeout == c.timeout / 2
    ensures k' == Ledger(k.spent + c.timeout + cfg.discoverTimeout, k.uncounted + cfg.discoverTimeout, k.lease)
  {
    hide Accounted;
    var error := Readable(c.timeout, ReadError);
    assert Enabled(c, error);
    TurnAccounted(cfg, c, k, error);
    c', k' := Turn(cfg, c, error), Charge(cfg, c, error, k);
    assert c' == c.(waited := c.timeout + cfg.discoverTimeout, socketOpen := true);
    TurnAccounted(cfg, c', k', TimedOut(0, true, 0));
    c', k' := Turn(cfg, c', TimedOut(0, true, 0)), Charge(cfg, c', TimedOut(0, true, 0), k');
  }

  /** A lease of sixteen seconds ... */
  lemma ShortAck(cfg: Config) returns (c: Client, k: Ledger)
    requires ValidConfig(cfg) && !cfg.quit && cfg.discoverTimeout > 0
    ensures Accounted(cfg, c, k) && k == Ledger(0, 0, 16)
    ensures c.state == Bound && c.exit == None && c.waited == 0 && c.timeout == 8
  {
    hide Accounted;
    c := CanRequest(cfg);
    k := ReachableAccounted(cfg, c);
    var ack := Acknowledgement(16);
    assert Enabled(c, ack);
    TurnAccounted(cfg, c, k, ack);
    c, k := Turn(cfg, c, ack), Charge(cfg, c, ack, k);
  }

  /** ... up to the first wait of rebinding. */
  lemma ShortLease(cfg: Config) returns (c: Client, k: Ledger)
    requires ValidConfig(cfg) && !cfg.quit && cfg.discoverTimeout > 0
    ensures Accounted(cfg, c, k) && k == Ledger(8, 0, 16)
    ensures c.state == Rebinding && c.listen == ListenRaw && c.exit == None && c.waited == 0 && c.timeout == 4
  {
    hide Accounted;
    c, k := ShortAck(cfg);
    TurnAccounted(cfg, c, k, TimedOut(8, true, 0));
    c, k := Turn(cfg, c, TimedOut(8, true, 0)), Charge(cfg, c, TimedOut(8, true, 0), k);
  }

  /** By the clock, that is with the uncounted seconds, leases are kept in all runs if and
      only if the client never rests on one: read errors at the ends of three waits of a
      short lease let it be outlived. */
  lemma ClockKeptIff(cfg: Config)
    requires ValidConfig(cfg)
    ensures (forall c: Client, k: Ledger | Accounted(cfg, c, k) && Configured(c.state) && c.exit == None :: k.spent < k.lease)
       <==> cfg.quit || cfg.discoverTimeout == 0
  {
    if cfg.quit || cfg.discoverTimeout == 0 {
      forall c: Client, k: Ledger | Accounted(cfg, c, k) ensures Configured(c.state) ==> c.exit != None {
        var c0: Client, evs: seq<Event> :| IsStart(c0) && Possible(cfg, c0, evs) && Run(cfg, c0, evs) == c;
        StartCoherent(c0);
        RunLeaseless(cfg, c0, evs);
      }
    } else {
      hide Accounted;
      var c, k := ShortLease(cfg);
      c, k := PausedWait(cfg, c, k);
      c, k := PausedWait(cfg, c, k);
      c, k := PausedWait(cfg, c, k);
      assert k.spent >= 18 && k.lease == 16;
    }
  }

  // ----- a run in which no server answers -----

  function TotalElapsed(evs: seq<Event>): nat {
    if evs == [] then 0 else evs[0].elapsed + TotalElapsed(evs[1..])
  }

  lemma SilentTurn(cfg: Config, c: Client, x: Xid)
    requires Configured(c.state) && c.timeout >= 0 && c.exit == None
    ensures var c' := OnTimeout(cfg, c, true, x);
      && c'.waited == 0 && c'.exit == None && c'.timeout == c.timeout / 2
      && (if c.timeout > 0 then Configured(c'.state) else c'.state == InitSelecting)
  {
    hide Renew, Rebind;
    var d := c.(waited := 0);
    SilentRenew(d);
    SilentRenew(ChangeListenMode(d, ListenKernel).(state := Renewing));
  }

  lemma SilentRenew(c: Client)
    requires Configured(c.state) && c.timeout >= 0
    ensures HeldOn(c, Renew(c)) && HeldOn(c, Rebind(c))
  {
    assert HeldOn(c, Rebind(c));
    hide Rebind;
  }

  /** The next wait is half the present one, and after the last one the lease is gone. */
  predicate HeldOn(c: Client, d: Client) {
    && d.waited == c.waited && d.exit == c.exit && d.timeout == c.timeout / 2
    && (if c.timeout > 0 then Configured(d.state) else d.state == InitSelecting)
  }

  /** Left alone, the client gives the lease up after exactly t + t/2 + ... + 1 seconds,
      and not before. */
  lemma {:induction false} SilentLease(cfg: Config, c: Client, x: Xid) returns (evs: seq<Event>)
    requires TimerInv(cfg, c) && Configured(c.state) && c.waited == 0 && c.exit == None
    ensures Possible(cfg, c, evs) && forall e | e in evs :: e.TimedOut? && e.interfaceOk
    ensures TotalElapsed(evs) == TotalWaits(c.timeout) == 2 * c.timeout - OneBits(c.timeout)
    ensures Run(cfg, c, evs).state == InitSelecting
    ensures forall n | 0 <= n < |evs| :: Configured(Run(cfg, c, evs[..n]).state)
    decreases c.timeout
  {
    var ev := TimedOut(c.timeout, true, x);
    TotalWaitsClosedForm(c.timeout);
    WaitExact(cfg, c);
    SilentTurn(cfg, c, x);
    var c' := Turn(cfg, c, ev);
    assert Enabled(c, ev) && c' == OnTimeout(cfg, c, true, x);
    hide Enabled, Turn, OnTimeout;
    if c.timeout == 0 {
      evs := [ev];
      assert evs[1..] == [];
      assert Possible(cfg, c', []) && Run(cfg, c', []) == c';
    } else {
      var rest := SilentLease(cfg, c', x);
      evs := [ev] + rest;
      assert evs[1..] == rest;
      forall n | 0 <= n < |evs| ensures Configured(Run(cfg, c, evs[..n]).state) {
        if n > 0 {
          assert evs[..n][1..] == rest[..n - 1];
        }
      }
    }
  }
}
