/** Whole conversations, packet by packet: what the client does, and in which order, when
    servers answer, refuse or keep silent and when it is sent signals. */
module ClientDialogue {
  import opened Wrappers
  import opened ClientSpec
  import opened ClientSafety
  import opened ClientTraffic

  // ----- single turns -----

  /** Looking for a server, with nothing sent yet. */
  predicate Searching(c: Client) {
    c.state == InitSelecting && c.listen == ListenRaw && c.packetNum == 0
  }

  /** A packet for this client in the transaction `xid`. */
  predicate Answers(ev: Event, xid: Xid, kind: nat) {
    && ev.Readable? && ev.reading.ReadMessage?
    && ev.reading.message.xid == xid && ev.reading.message.forUs && ev.reading.message.kind == Some(kind)
  }

  predicate Quiet(ev: Event) {
    ev.TimedOut? && ev.interfaceOk
  }

  function ServerOf(m: Message): Ip {
    if m.serverId.Some? then m.serverId.value else 0
  }

  /** The lease an acknowledgement grants, as the client takes it. */
  function LeaseOf(m: Message): nat {
    var n := if m.leaseTime.Some? then m.leaseTime.value else 3600;
    if n < 16 then 16 else if n <= 268435455 then n else 268435455
  }

  lemma DiscoverTurn(cfg: Config, c: Client, ev: Event)
    requires c.state == InitSelecting && MayRetry(cfg, c) && Quiet(ev)
    ensures var x := if c.packetNum == 0 then ev.freshXid else c.xid;
      Turn(cfg, c, ev) == c.(waited := 0, xid := x, timeout := cfg.discoverTimeout, packetNum := c.packetNum + 1,
                             log := c.log + [SendDiscover(x, c.requested)])
  {
  }

  lemma SelectTurn(cfg: Config, c: Client, ev: Event)
    requires c.state == Requesting && MayRetry(cfg, c) && Quiet(ev)
    ensures Turn(cfg, c, ev) == c.(waited := 0, timeout := cfg.discoverTimeout, packetNum := c.packetNum + 1,
                                   log := c.log + [SendSelect(c.xid, c.server, c.requested)])
  {
  }

  lemma OfferTurn(cfg: Config, c: Client, ev: Event)
    requires c.state == InitSelecting && c.listen == ListenRaw && Answers(ev, c.xid, 2)
    ensures var m := ev.reading.message;
      Turn(cfg, c, ev) == c.(server := ServerOf(m), requested := m.yiaddr, state := Requesting, timeout := 0, packetNum := 0, waited := 0)
  {
  }

  /** On the lease that `m` grants, with `log` done; or off at once under -q. */
  predicate TakesUp(cfg: Config, c: Client, m: Message, server: Ip, log: seq<Action>) {
    if cfg.quit then
      && c.exit == Some(0)
      && c.log == log + if cfg.releaseOnExit then [SendRelease(server, m.yiaddr), ScriptDeconfig] else []
    else
      && c.exit == None && c.state == Bound && c.timeout == LeaseOf(m) / 2 && c.waited == 0
      && c.server == server && c.requested == m.yiaddr && !c.optN && c.optF && c.log == log
  }

  lemma BindTurn(c: Client, m: Message)
    ensures var d := Bind(c, m);
      && d.state == Bound && d.timeout == LeaseOf(m) / 2 && d.server == c.server && d.requested == m.yiaddr
      && d.optN == c.optN && d.optF == c.optF && d.exit == c.exit
      && d.log == c.log + [if c.state == Requesting then ScriptBound(m.yiaddr) else ScriptRenew(m.yiaddr)]
  {
  }

  /** Leaving right after an acknowledgement. */
  lemma LeaveBound(cfg: Config, d: Client)
    requires d.state == Bound
    ensures var c' := Leave(cfg, d);
      && c'.exit == Some(0)
      && c'.log == d.log + if cfg.releaseOnExit then [SendRelease(d.server, d.requested), ScriptDeconfig] else []
  {
  }

  lemma AckTurn(cfg: Config, c: Client, ev: Event)
    requires AwaitsAnswer(c.state) && c.listen == ListenModeOf(c.state) && c.exit == None
    requires Answers(ev, c.xid, 5) && (cfg.arping ==> ev.reading.message.addressFree)
    ensures var m := ev.reading.message;
      var configured := if c.state == Requesting then ScriptBound(m.yiaddr) else ScriptRenew(m.yiaddr);
      TakesUp(cfg, Turn(cfg, c, ev), m, c.server, c.log + [configured])
  {
    var m, d := ev.reading.message, c.(waited := AddWaited(c.waited, ev.elapsed));
    assert Turn(cfg, c, ev) == OnAck(cfg, d, m);
    BindTurn(d, m);
    LeaveBound(cfg, Bind(d, m));
    hide Turn, Bind, Leave, LeaseOf, Decline, AddWaited;
  }

  /** A renewal is asked of the server that granted the lease, but of anyone in the last
      minute. */
  predicate AsksAnyone(c: Client) {
    c.timeout <= 60
  }

  function Renewal(c: Client): Action {
    SendRenew(c.xid, if AsksAnyone(c) then 0 else c.server, c.requested)
  }

  /** The next wait is half as long, until the last one gives the lease up. */
  predicate Renewed(c: Client, c': Client) {
    && c'.log == c.log + [if c.timeout > 0 then Renewal(c) else ScriptDeconfig]
    && c'.timeout == c.timeout / 2 && c'.waited == 0 && c'.exit == c.exit && SocketInv(c')
    && c'.xid == c.xid && c'.server == c.server && c'.requested == c.requested
    && (if c.timeout == 0 then Searching(c')
        else if AsksAnyone(c) then c'.state == Rebinding
        else Configured(c'.state) && c'.state != Bound)
  }

  lemma RenewSteps(c: Client)
    requires c.timeout >= 0 && c.waited == 0
    ensures AsksAnyone(c) ==> Renewed(c, Rebind(c))
    ensures Configured(c.state) && c.state != Bound && c.state != Rebinding && ListenInv(c) ==> Renewed(c, Renew(c))
  {
    assert AsksAnyone(c) ==> Renewed(c, Rebind(c));
    hide Rebind;
  }

  lemma RenewTurn(cfg: Config, c: Client, ev: Event)
    requires SocketInv(c) && Configured(c.state) && Quiet(ev) && c.timeout >= 0
    ensures Renewed(c, Turn(cfg, c, ev))
  {
    hide Renew, Rebind;
    var d := c.(waited := 0);
    var e := ChangeListenMode(d, ListenKernel).(state := Renewing);
    RenewSteps(d);
    RenewSteps(e);
    assert Renewal(d) == Renewal(c) == Renewal(e);
  }

  // ----- conversations -----

  /** Discover, offer, select, acknowledge: the client asks the server that made the offer
      for the address it offered, and sets up the address that was confirmed. */
  lemma Handshake(cfg: Config, c: Client, a: Event, offer: Event, b: Event, ack: Event)
    requires Searching(c) && c.exit == None && Quiet(a) && Quiet(b)
    requires Answers(offer, a.freshXid, 2) && Answers(ack, a.freshXid, 5) && (cfg.arping ==> ack.reading.message.addressFree)
    ensures var x, o, m := a.freshXid, offer.reading.message, ack.reading.message;
      TakesUp(cfg, Run(cfg, c, [a, offer, b, ack]), m, ServerOf(o),
              c.log + [SendDiscover(x, c.requested), SendSelect(x, ServerOf(o), o.yiaddr), ScriptBound(m.yiaddr)])
  {
    var x, o, m := a.freshXid, offer.reading.message, ack.reading.message;
    RunFour(cfg, c, a, offer, b, ack);
    DiscoverTurn(cfg, c, a);
    var c1 := Turn(cfg, c, a);
    OfferTurn(cfg, c1, offer);
    var c2 := Turn(cfg, c1, offer);
    SelectTurn(cfg, c2, b);
    var c3 := Turn(cfg, c2, b);
    AckTurn(cfg, c3, ack);
    assert c.log + [SendDiscover(x, c.requested)] + [SendSelect(x, ServerOf(o), o.yiaddr)] + [ScriptBound(m.yiaddr)]
        == c.log + [SendDiscover(x, c.requested), SendSelect(x, ServerOf(o), o.yiaddr), ScriptBound(m.yiaddr)];
    hide *;
  }

  /** A due renewal that is acknowledged takes up the new lease. */
  lemma RenewalHandshake(cfg: Config, c: Client, a: Event, ack: Event)
    requires SocketInv(c) && Configured(c.state) && c.timeout > 0 && c.exit == None && Quiet(a)
    requires Answers(ack, c.xid, 5) && (cfg.arping ==> ack.reading.message.addressFree)
    ensures var m := ack.reading.message;
      TakesUp(cfg, Run(cfg, c, [a, ack]), m, c.server, c.log + [Renewal(c), ScriptRenew(m.yiaddr)])
  {
    var c1 := Turn(cfg, c, a);
    RenewTurn(cfg, c, a);
    RunFour(cfg, c, a, ack, ack, ack);
    AckTurn(cfg, c1, ack);
    var m := ack.reading.message;
    assert c.log + [Renewal(c)] + [ScriptRenew(m.yiaddr)] == c.log + [Renewal(c), ScriptRenew(m.yiaddr)];
    hide Turn, Run, TakesUp;
  }

  lemma RunFour(cfg: Config, c: Client, a: Event, b: Event, d: Event, e: Event)
    ensures Run(cfg, c, [a, b]) == Turn(cfg, Turn(cfg, c, a), b)
    ensures Run(cfg, c, [a, b, d]) == Turn(cfg, Turn(cfg, Turn(cfg, c, a), b), d)
    ensures Run(cfg, c, [a, b, d, e]) == Turn(cfg, Turn(cfg, Turn(cfg, Turn(cfg, c, a), b), d), e)
  {
    hide Turn;
    assert [a, b, d] + [e] == [a, b, d, e] && [a, b] + [d] == [a, b, d] && [a] + [b] == [a, b] && [] + [a] == [a];
    RunNext(cfg, c, [a, b, d], e);
    RunNext(cfg, c, [a, b], d);
    RunNext(cfg, c, [a], b);
    RunNext(cfg, c, [], a);
  }

  // ----- silence -----

  predicate AllQuiet(evs: seq<Event>) {
    forall k | 0 <= k < |evs| :: Quiet(evs[k])
  }

  function Times(a: Action, n: nat): seq<Action> {
    if n == 0 then [] else Times(a, n - 1) + [a]
  }

  /** What a lease that nobody renews makes the client do: a request after half the time,
      half of the rest and so on, in the last minute to anyone, and then it is given up. */
  function Unanswered(c: Client, t: nat): seq<Action>
    decreases t
  {
    if t == 0 then [ScriptDeconfig]
    else [SendRenew(c.xid, if t > 60 then c.server else 0, c.requested)] + Unanswered(c, t / 2)
  }

  lemma {:induction false} SilentRenewals(cfg: Config, c: Client, evs: seq<Event>)
    requires SocketInv(c) && Configured(c.state) && c.timeout >= 0
    requires AllQuiet(evs) && |evs| == |Unanswered(c, c.timeout)|
    ensures var c' := Run(cfg, c, evs);
      Searching(c') && c'.log == c.log + Unanswered(c, c.timeout) && c'.exit == c.exit
    decreases c.timeout
  {
    hide Turn, SocketInv;
    var c1 := Turn(cfg, c, evs[0]);
    RenewTurn(cfg, c, evs[0]);
    if c.timeout == 0 {
      assert evs[1..] == [];
    } else {
      SameUnanswered(c, c1, c1.timeout);
      SilentRenewals(cfg, c1, evs[1..]);
    }
  }

  lemma {:induction false} SameUnanswered(c: Client, d: Client, t: nat)
    requires d.xid == c.xid && d.server == c.server && d.requested == c.requested
    ensures Unanswered(d, t) == Unanswered(c, t)
    decreases t
  {
    if t > 0 {
      SameUnanswered(c, d, t / 2);
    }
  }

  /** `d` is `c` after `a` has been sent `n` times in the transaction `x`. */
  predicate Asking(cfg: Config, c: Client, d: Client, x: Xid, a: Action, n: nat) {
    d == c.(waited := 0, xid := x, timeout := cfg.discoverTimeout, packetNum := n, log := c.log + Times(a, n))
  }

  lemma AskAgain(cfg: Config, c: Client, d: Client, ev: Event, x: Xid, a: Action, n: nat)
    requires Quiet(ev) && (cfg.discoverRetries == 0 || n < cfg.discoverRetries)
    requires if n == 0 then d == c && c.packetNum == 0 else Asking(cfg, c, d, x, a, n)
    ensures c.state == InitSelecting && (n == 0 ==> x == ev.freshXid) && a == SendDiscover(x, c.requested) ==>
      Asking(cfg, c, Turn(cfg, d, ev), x, a, n + 1)
    ensures c.state == Requesting && x == c.xid && a == SendSelect(x, c.server, c.requested) ==>
      Asking(cfg, c, Turn(cfg, d, ev), x, a, n + 1)
  {
    if c.state == InitSelecting {
      DiscoverTurn(cfg, d, ev);
    } else if c.state == Requesting {
      SelectTurn(cfg, d, ev);
    }
    assert c.log + Times(a, n) + [a] == c.log + Times(a, n + 1);
    assert c.log + Times(a, 0) == c.log;
    hide Turn;
  }

  /** A search without an answer: a discover after every -T seconds, all in one
      transaction, as long as -t allows. */
  lemma {:induction false} SilentSearch(cfg: Config, c: Client, evs: seq<Event>)
    requires Searching(c) && AllQuiet(evs) && evs != []
    requires cfg.discoverRetries == 0 || |evs| <= cfg.discoverRetries
    ensures var x := evs[0].freshXid;
      Asking(cfg, c, Run(cfg, c, evs), x, SendDiscover(x, c.requested), |evs|)
    decreases |evs|
  {
    hide Turn, Asking;
    var n, x := |evs| - 1, evs[0].freshXid;
    assert evs == evs[..n] + [evs[n]];
    RunNext(cfg, c, evs[..n], evs[n]);
    if n > 0 {
      SilentSearch(cfg, c, evs[..n]);
    }
    AskAgain(cfg, c, Run(cfg, c, evs[..n]), evs[n], x, SendDiscover(x, c.requested), n);
  }

  /** A request without an answer goes the same way, always to the server that made the
      offer. */
  lemma {:induction false} SilentRequest(cfg: Config, c: Client, evs: seq<Event>)
    requires c.state == Requesting && c.packetNum == 0 && AllQuiet(evs) && evs != []
    requires cfg.discoverRetries == 0 || |evs| <= cfg.discoverRetries
    ensures Asking(cfg, c, Run(cfg, c, evs), c.xid, SendSelect(c.xid, c.server, c.requested), |evs|)
    decreases |evs|
  {
    hide Turn, Asking;
    var n := |evs| - 1;
    assert evs == evs[..n] + [evs[n]];
    RunNext(cfg, c, evs[..n], evs[n]);
    if n > 0 {
      SilentRequest(cfg, c, evs[..n]);
    }
    AskAgain(cfg, c, Run(cfg, c, evs[..n]), evs[n], c.xid, SendSelect(c.xid, c.server, c.requested), n);
  }

  /** With the last retry spent the client reports a failure; it leaves under -n, goes on
      in the background under -b, and otherwise starts over after -A seconds. */
  predicate GivesUp(cfg: Config, c: Client, c': Client, log: seq<Action>) {
    && c'.log == log + [ScriptLeaseFail]
    && (if c.optN && !c.optB then c'.exit == Some(1)
        else c'.exit == c.exit && Searching(c') && c'.timeout == cfg.tryagainTimeout && c'.waited == 0 && !c'.optB && (c.optB ==> c'.optF))
  }

  lemma FailTurn(cfg: Config, c: Client, ev: Event)
    requires !MayRetry(cfg, c) && Quiet(ev)
    requires c.state == Requesting || (c.state == InitSelecting && c.listen == ListenRaw)
    ensures GivesUp(cfg, c, Turn(cfg, c, ev), c.log)
  {
    hide Renew, Rebind, AddWaited;
  }

  lemma SearchGivesUp(cfg: Config, c: Client, evs: seq<Event>)
    requires Searching(c) && AllQuiet(evs) && 0 < cfg.discoverRetries == |evs| - 1
    ensures GivesUp(cfg, c, Run(cfg, c, evs), c.log + Times(SendDiscover(evs[0].freshXid, c.requested), cfg.discoverRetries))
  {
    var n := |evs| - 1;
    assert evs == evs[..n] + [evs[n]];
    RunNext(cfg, c, evs[..n], evs[n]);
    SilentSearch(cfg, c, evs[..n]);
    FailTurn(cfg, Run(cfg, c, evs[..n]), evs[n]);
    hide Turn, Run;
  }

  lemma RequestGivesUp(cfg: Config, c: Client, evs: seq<Event>)
    requires c.state == Requesting && c.packetNum == 0 && AllQuiet(evs) && 0 < cfg.discoverRetries == |evs| - 1
    ensures GivesUp(cfg, c, Run(cfg, c, evs), c.log + Times(SendSelect(c.xid, c.server, c.requested), cfg.discoverRetries))
  {
    var n := |evs| - 1;
    assert evs == evs[..n] + [evs[n]];
    RunNext(cfg, c, evs[..n], evs[n]);
    SilentRequest(cfg, c, evs[..n]);
    FailTurn(cfg, Run(cfg, c, evs[..n]), evs[n]);
    hide Turn, Run;
  }

  // ----- refusals and packets that are not for this transaction -----

  /** A refusal ends the lease, if there is one, and the search that follows at once asks
      for no address in particular. */
  lemma Refused(cfg: Config, c: Client, nak: Event, a: Event)
    requires SocketInv(c) && AwaitsAnswer(c.state) && Answers(nak, c.xid, 6) && Quiet(a)
    ensures var c1 := Turn(cfg, c, nak);
      && Searching(c1) && Wait(c1.timeout, c1.waited) == 0 && c1.exit == c.exit
      && Run(cfg, c, [nak, a]).log ==
           c.log + (if c.state == Requesting then [ScriptNak] else [ScriptNak, ScriptDeconfig]) + [SendDiscover(a.freshXid, 0)]
  {
    hide OnTimeout, OnUsr1, PerformRelease, Bind, AddWaited, ClampedLease;
    RunFour(cfg, c, nak, a, a, a);
    var c1, m, d := Turn(cfg, c, nak), nak.reading.message, c.(waited := AddWaited(c.waited, nak.elapsed));
    assert c1 == OnNak(d);
    assert SameLog(c1.log, c.log + if c.state == Requesting then [ScriptNak] else [ScriptNak, ScriptDeconfig]);
    DiscoverTurn(cfg, c1, a);
  }

  /** An address that is confirmed but in use is declined to the server that made the
      offer; the search that follows after -A seconds asks for no address either. */
  lemma InUse(cfg: Config, c: Client, ack: Event, a: Event)
    requires SocketInv(c) && AwaitsAnswer(c.state) && Answers(ack, c.xid, 5) && Quiet(a)
    requires cfg.arping && !ack.reading.message.addressFree
    ensures var c1, decline := Turn(cfg, c, ack), SendDecline(c.server, ack.reading.message.yiaddr);
      && Searching(c1) && c1.timeout == cfg.tryagainTimeout && c1.waited == 0 && c1.exit == c.exit
      && Run(cfg, c, [ack, a]).log ==
           c.log + (if c.state == Requesting then [decline] else [decline, ScriptDeconfig]) + [SendDiscover(a.freshXid, 0)]
  {
    hide OnTimeout, OnUsr1, PerformRelease, Bind, AddWaited, ClampedLease;
    RunFour(cfg, c, ack, a, a, a);
    var m, d := ack.reading.message, c.(waited := AddWaited(c.waited, ack.elapsed));
    var c1, decline := Turn(cfg, c, ack), SendDecline(c.server, m.yiaddr);
    assert c1 == Decline(cfg, d, m);
    hide OnAck, OnMessage;
    assert SameLog(c1.log, c.log + if c.state == Requesting then [decline] else [decline, ScriptDeconfig]);
    DiscoverTurn(cfg, c1, a);
  }

  predicate SameLog(a: seq<Action>, b: seq<Action>) {
    a == b
  }

  /** A packet of another transaction, for another client, without a type or of a type that
      the state does not wait for is only waited through. */
  lemma OthersIgnored(cfg: Config, c: Client, ev: Event)
    requires ev.Readable? && ev.reading != ReadError
    requires c.state == InitSelecting ==> !Answers(ev, c.xid, 2)
    requires AwaitsAnswer(c.state) ==> !Answers(ev, c.xid, 5) && !Answers(ev, c.xid, 6)
    ensures var c' := Turn(cfg, c, ev);
      c' == c.(waited := c'.waited) && c'.waited == if c.listen == ListenNone then c.waited else (c.waited + ev.elapsed) % 0x1_0000_0000
  {
    hide OnAck, OnNak;
  }

  // ----- signals and the end -----

  function HurriedTime(cfg: Config, c: Client): int {
    if c.timeout < cfg.tryagainTimeout then c.timeout else cfg.tryagainTimeout
  }

  /** A lease about to be renewed, with at most -A seconds left. */
  function Hurried(cfg: Config, c: Client): Client {
    c.(state := RenewRequested, timeout := HurriedTime(cfg, c), waited := 0,
       listen := if c.state == Bound then ListenKernel else c.listen,
       socketOpen := if c.state == Bound then true else c.socketOpen)
  }

  lemma HurriedTurn(cfg: Config, c: Client, ev: Event)
    requires HasLease(c.state) && ev.SigUsr1?
    ensures Turn(cfg, c, ev) == Renew(Hurried(cfg, c))
  {
    hide Renew;
  }

  /** SIGUSR1 on a lease asks for its renewal at once, and in time for -A. */
  lemma RenewsOnSignal(cfg: Config, c: Client, ev: Event)
    requires SocketInv(c) && HasLease(c.state) && ev.SigUsr1? && c.timeout >= 0
    ensures var t, c' := HurriedTime(cfg, c), Turn(cfg, c, ev);
      && c'.log == c.log + [if t > 60 then SendRenew(c.xid, c.server, c.requested)
                            else if t > 0 then SendRenew(c.xid, 0, c.requested) else ScriptDeconfig]
      && c'.timeout == t / 2 && c'.waited == 0
  {
    HurriedTurn(cfg, c, ev);
    RenewSteps(Hurried(cfg, c));
    hide Turn, Renew, Rebind;
  }

  /** Without a lease it starts a search at once, for the address last asked for. */
  lemma SearchesOnSignal(cfg: Config, c: Client, ev: Event, a: Event)
    requires SocketInv(c) && !HasLease(c.state) && ev.SigUsr1? && Quiet(a)
    ensures var c1 := Turn(cfg, c, ev);
      && Searching(c1) && Wait(c1.timeout, c1.waited) == 0
      && Run(cfg, c, [ev, a]).log ==
           c.log + (if c.state == RenewRequested then [ScriptDeconfig] else []) + [SendDiscover(a.freshXid, c.requested)]
  {
    RunFour(cfg, c, ev, a, a, a);
    var c1 := Turn(cfg, c, ev);
    assert SameLog(c1.log, c.log + if c.state == RenewRequested then [ScriptDeconfig] else []);
    DiscoverTurn(cfg, c1, a);
  }

  function Goodbye(c: Client): seq<Action> {
    if HasLease(c.state) then [SendRelease(c.server, c.requested), ScriptDeconfig] else []
  }

  /** SIGUSR2 releases a lease, and then nothing but a signal moves the client. */
  lemma ReleasesOnSignal(cfg: Config, c: Client, ev: Event, evs: seq<Event>)
    requires ev.SigUsr2?
    requires forall k | 0 <= k < |evs| :: Quiet(evs[k]) || evs[k].Interrupted? || evs[k].Spurious? || evs[k].Readable?
    ensures var c' := Run(cfg, c, [ev] + evs);
      c'.log == c.log + Goodbye(c) && c'.exit == c.exit && c'.listen == ListenNone && !c'.socketOpen
  {
    var c1 := Turn(cfg, c, ev);
    assert ([ev] + evs)[1..] == evs;
    assert SameLog(c1.log, c.log + Goodbye(c));
    RestsReleased(cfg, c1, evs);
  }

  lemma {:induction false} RestsReleased(cfg: Config, c: Client, evs: seq<Event>)
    requires c.state == Released && c.listen == ListenNone && !c.socketOpen
    requires forall k | 0 <= k < |evs| :: Quiet(evs[k]) || evs[k].Interrupted? || evs[k].Spurious? || evs[k].Readable?
    ensures var c' := Run(cfg, c, evs);
      c'.log == c.log && c'.exit == c.exit && c'.listen == ListenNone && !c'.socketOpen
    decreases |evs|
  {
    if evs != [] {
      var c1 := Turn(cfg, c, evs[0]);
      assert c1.log == c.log && c1.exit == c.exit && c1.state == Released && c1.listen == ListenNone && !c1.socketOpen;
      hide Turn;
      RestsReleased(cfg, c1, evs[1..]);
    }
  }

  /** SIGTERM and the loss of the interface end the client; under -R it releases. */
  lemma Ends(cfg: Config, c: Client, ev: Event)
    requires ev.SigTerm? || (ev.TimedOut? && !ev.interfaceOk)
    ensures var c' := Turn(cfg, c, ev);
      c'.exit == Some(0) && c'.log == c.log + if cfg.releaseOnExit then Goodbye(c) else []
  {
  }
}
