/** Whom the client speaks to and what about, told from the packets it has taken: the
    server, the address and the transaction id in everything it sends. */
module ClientTraffic {
  import opened Wrappers
  import opened ClientSpec
  import opened ClientSafety

  datatype Peer = Peer(server: Ip, address: Ip, xid: Xid)

  /** A packet of type `kind` that is read and belongs to the transaction of `p`. */
  predicate Hears(p: Peer, ev: Event, kind: nat) {
    && ev.Readable? && ev.reading.ReadMessage?
    && ev.reading.message.xid == p.xid && ev.reading.message.forUs && ev.reading.message.kind == Some(kind)
  }

  predicate AwaitsAnswer(s: State) {
    s == Requesting || s == Renewing || s == RenewRequested || s == Rebinding
  }

  predicate TakesOffer(s: State, p: Peer, ev: Event) {
    Hears(p, ev, 2) && s == InitSelecting
  }

  predicate TakesAck(cfg: Config, s: State, p: Peer, ev: Event) {
    Hears(p, ev, 5) && AwaitsAnswer(s) && (cfg.arping ==> ev.reading.message.addressFree)
  }

  predicate Declines(cfg: Config, s: State, p: Peer, ev: Event) {
    Hears(p, ev, 5) && AwaitsAnswer(s) && cfg.arping && !ev.reading.message.addressFree
  }

  predicate TakesNak(s: State, p: Peer, ev: Event) {
    Hears(p, ev, 6) && AwaitsAnswer(s)
  }

  /** The first packet of a search is due. */
  predicate StartsSearch(c: Client, ev: Event) {
    ev.TimedOut? && ev.interfaceOk && c.state == InitSelecting && c.packetNum == 0
  }

  /** What the client knows after an event, from what it knew before. */
  function Learns(cfg: Config, c: Client, p: Peer, ev: Event): Peer {
    if TakesOffer(c.state, p, ev) then
      var m := ev.reading.message;
      p.(server := if m.serverId.Some? then m.serverId.value else 0, address := m.yiaddr)
    else if TakesAck(cfg, c.state, p, ev) then p.(address := ev.reading.message.yiaddr)
    else if Declines(cfg, c.state, p, ev) || TakesNak(c.state, p, ev) then p.(address := 0)
    else if StartsSearch(c, ev) then p.(xid := ev.freshXid)
    else p
  }

  /** The server of the last offer taken (0 if it named none), the address that was last
      offered or confirmed (0 once refused), and the id drawn for the last search. */
  function Told(cfg: Config, c0: Client, evs: seq<Event>): Peer
    decreases |evs|
  {
    if evs == [] then Peer(c0.server, c0.requested, c0.xid)
    else
      var pre := evs[..|evs| - 1];
      Learns(cfg, Run(cfg, c0, pre), Told(cfg, c0, pre), evs[|evs| - 1])
  }

  predicate Knows(c: Client, p: Peer) {
    c.server == p.server && c.requested == p.address && c.xid == p.xid
  }

  /** What an action may say: `p` is what the client was told before the event and `p'`
      with it, `rebinding` whether the turn ends in REBINDING. */
  predicate Says(a: Action, p: Peer, p': Peer, rebinding: bool, ev: Event) {
    match a
    case SendDiscover(xid, requested) => xid == p'.xid && requested == p.address
    case SendSelect(xid, server, requested) => xid == p.xid && server == p.server && requested == p.address
    case SendRenew(xid, server, ciaddr) =>
      xid == p.xid && server == (if rebinding then 0 else p.server) && ciaddr == p.address
    case SendRelease(server, ciaddr) => server == p.server && ciaddr == p'.address
    case SendDecline(server, requested) =>
      server == p.server && ev.Readable? && ev.reading.ReadMessage? && requested == ev.reading.message.yiaddr
    case ScriptBound(ip) => ip == p'.address
    case ScriptRenew(ip) => ip == p'.address
    case _ => true
  }

  /** `log` goes on from `past` with actions that say the right things. */
  predicate Speech(past: seq<Action>, log: seq<Action>, p: Peer, p': Peer, rebinding: bool, ev: Event) {
    && |past| <= |log| && log[..|past|] == past
    && forall k | |past| <= k < |log| :: Says(log[k], p, p', rebinding, ev)
  }

  predicate Speaks(c: Client, c': Client, p: Peer, p': Peer, ev: Event) {
    Speech(c.log, c'.log, p, p', c'.state == Rebinding, ev)
  }

  lemma SpeechDo(past: seq<Action>, log: seq<Action>, a: Action, p: Peer, p': Peer, rebinding: bool, ev: Event)
    requires Says(a, p, p', rebinding, ev)
    ensures Speech(past, past, p, p', rebinding, ev)
    ensures Speech(past, log, p, p', rebinding, ev) ==> Speech(past, log + [a], p, p', rebinding, ev)
  {
    hide Says;
  }

  lemma RenewTold(c: Client, p: Peer, p': Peer, ev: Event)
    requires Knows(c, p) && p' == p && c.state != Rebinding
    ensures Knows(Renew(c), p') && Speaks(c, Renew(c), p, p', ev)
  {
    hide Speech;
    SpeechDo(c.log, c.log, SendRenew(c.xid, c.server, c.requested), p, p', false, ev);
    RebindTold(c, p, p', ev);
    hide Rebind;
  }

  lemma RebindTold(c: Client, p: Peer, p': Peer, ev: Event)
    requires Knows(c, p) && p' == p
    ensures Knows(Rebind(c), p') && Speaks(c, Rebind(c), p, p', ev)
  {
    hide Speech;
    SpeechDo(c.log, c.log, SendRenew(c.xid, 0, c.requested), p, p', true, ev);
    SpeechDo(c.log, c.log, ScriptDeconfig, p, p', false, ev);
  }

  lemma ReleaseTold(past: seq<Action>, c: Client, p: Peer, p': Peer, ev: Event)
    requires c.server == p.server && Knows(c, p') && Speech(past, c.log, p, p', false, ev)
    ensures var c' := PerformRelease(c); Knows(c', p') && Speech(past, c'.log, p, p', false, ev) && c'.state == Released
  {
    hide Speech;
    var a := SendRelease(c.server, c.requested);
    SpeechDo(past, c.log, a, p, p', false, ev);
    SpeechDo(past, c.log + [a], ScriptDeconfig, p, p', false, ev);
  }

  lemma LeaseFailTold(cfg: Config, c: Client, p: Peer, p': Peer, ev: Event)
    requires Knows(c, p') && c.state != Rebinding
    ensures Knows(LeaseFail(cfg, c), p') && Speaks(c, LeaseFail(cfg, c), p, p', ev)
  {
    hide Speech;
    SpeechDo(c.log, c.log, ScriptLeaseFail, p, p', false, ev);
  }

  lemma TimeoutTold(cfg: Config, c: Client, p: Peer, ev: Event)
    requires SocketInv(c) && Knows(c, p) && ev.TimedOut?
    ensures var c', p' := OnTimeout(cfg, c, ev.interfaceOk, ev.freshXid), Learns(cfg, c, p, ev);
      Knows(c', p') && Speaks(c, c', p, p', ev)
  {
    hide Renew, Rebind, PerformRelease, LeaseFail, Speech;
    var p' := Learns(cfg, c, p, ev);
    var d := c.(waited := 0);
    SpeechDo(c.log, c.log, ScriptNak, p, p', c.state == Rebinding, ev);
    if !ev.interfaceOk {
      SpeechDo(c.log, c.log, ScriptNak, p, p', false, ev);
      ReleaseTold(c.log, c, p, p', ev);
    } else {
      match c.state
      case InitSelecting =>
        SpeechDo(c.log, c.log, SendDiscover(p'.xid, p.address), p, p', false, ev);
        if !MayRetry(cfg, d) {
          LeaseFailTold(cfg, d, p, p', ev);
        }
      case Requesting =>
        SpeechDo(c.log, c.log, SendSelect(p.xid, p.server, p.address), p, p', false, ev);
        LeaseFailTold(cfg, ChangeListenMode(d, ListenRaw).(state := InitSelecting), p, p', ev);
      case Bound => RenewTold(ChangeListenMode(d, ListenKernel).(state := Renewing), p, p', ev);
      case Rebinding => RebindTold(d, p, p', ev);
      case Released =>
      case _ => RenewTold(d, p, p', ev);
    }
  }

  lemma DeclineTold(cfg: Config, c: Client, m: Message, p: Peer, p': Peer, ev: Event)
    requires Knows(c, p) && ev.Readable? && ev.reading == ReadMessage(m) && p' == p.(address := 0)
    ensures Knows(Decline(cfg, c, m), p') && Speaks(c, Decline(cfg, c, m), p, p', ev)
  {
    hide Speech;
    var a := SendDecline(c.server, m.yiaddr);
    SpeechDo(c.log, c.log, a, p, p', false, ev);
    SpeechDo(c.log, c.log + [a], ScriptDeconfig, p, p', false, ev);
  }

  lemma NakTold(c: Client, p: Peer, p': Peer, ev: Event)
    requires Knows(c, p) && p' == p.(address := 0)
    ensures Knows(OnNak(c), p') && Speaks(c, OnNak(c), p, p', ev)
  {
    hide Speech;
    SpeechDo(c.log, c.log, ScriptNak, p, p', false, ev);
    SpeechDo(c.log, c.log + [ScriptNak], ScriptDeconfig, p, p', false, ev);
  }

  lemma BindTold(c: Client, m: Message, p: Peer, p': Peer, ev: Event)
    requires Knows(c, p) && p' == p.(address := m.yiaddr)
    ensures var d := Bind(c, m);
      Knows(d, p') && d.server == p.server && d.state == Bound && Speech(c.log, d.log, p, p', false, ev)
  {
    hide Speech, ClampedLease;
    SpeechDo(c.log, c.log, ScriptBound(m.yiaddr), p, p', false, ev);
    SpeechDo(c.log, c.log, ScriptRenew(m.yiaddr), p, p', false, ev);
  }

  lemma AckTold(cfg: Config, c: Client, m: Message, p: Peer, p': Peer, ev: Event)
    requires Knows(c, p) && p' == p.(address := m.yiaddr) && (cfg.arping ==> m.addressFree)
    ensures Knows(OnAck(cfg, c, m), p') && Speaks(c, OnAck(cfg, c, m), p, p', ev)
  {
    hide Speech, PerformRelease, Decline, Bind, Says;
    BindTold(c, m, p, p', ev);
    ReleaseTold(c.log, Bind(c, m), p, p', ev);
  }

  lemma MessageTold(cfg: Config, c: Client, m: Message, p: Peer, ev: Event)
    requires Knows(c, p) && c.listen == ListenModeOf(c.state) && c.listen != ListenNone
    requires ev.Readable? && ev.reading == ReadMessage(m)
    ensures var c', p' := OnMessage(cfg, c, m), Learns(cfg, c, p, ev);
      Knows(c', p') && Speaks(c, c', p, p', ev)
  {
    var p' := Learns(cfg, c, p, ev);
    assert Declines(cfg, c.state, p, ev) ==> OnAck(cfg, c, m) == Decline(cfg, c, m);
    hide OnAck, OnNak, Decline, Speech;
    SpeechDo(c.log, c.log, ScriptNak, p, p', c.state == Rebinding, ev);
    SpeechDo(c.log, c.log, ScriptNak, p, p', false, ev);
    if Declines(cfg, c.state, p, ev) {
      DeclineTold(cfg, c, m, p, p', ev);
    } else if TakesAck(cfg, c.state, p, ev) {
      AckTold(cfg, c, m, p, p', ev);
    } else if TakesNak(c.state, p, ev) {
      NakTold(c, p, p', ev);
    }
  }

  lemma ReadableTold(cfg: Config, c: Client, p: Peer, ev: Event)
    requires SocketInv(c) && Knows(c, p) && ev.Readable?
    ensures var c', p' := OnReadable(cfg, c, ev.elapsed, ev.reading), Learns(cfg, c, p, ev);
      Knows(c', p') && Speaks(c, c', p, p', ev)
  {
    hide OnMessage, AddWaited, Speech;
    var p' := Learns(cfg, c, p, ev);
    SpeechDo(c.log, c.log, ScriptNak, p, p', c.state == Rebinding, ev);
    if ev.reading.ReadMessage? && c.listen != ListenNone {
      MessageTold(cfg, c.(waited := AddWaited(c.waited, ev.elapsed)), ev.reading.message, p, ev);
    }
  }

  lemma PerformRenewSteps(c: Client)
    ensures var c' := PerformRenew(c);
      && c'.server == c.server && c'.requested == c.requested && c'.xid == c.xid && c'.state != Rebinding
      && c'.log == (if c.state == RenewRequested then c.log + [ScriptDeconfig] else c.log)
      && (c'.state == RenewRequested ==> c.state != RenewRequested)
  {
    assert Do(c, ScriptDeconfig).log == c.log + [ScriptDeconfig];
    hide Do;
  }

  lemma PerformRenewTold(c: Client, p: Peer, ev: Event)
    requires Knows(c, p)
    ensures var c' := PerformRenew(c);
      && Knows(c', p) && c'.state != Rebinding && Speaks(c, c', p, p, ev)
      && (c'.state == RenewRequested ==> c'.log == c.log)
  {
    hide Speech, Says, PerformRenew;
    PerformRenewSteps(c);
    SaysDeconfig(p, ev);
    SpeechDo(c.log, c.log, ScriptDeconfig, p, p, false, ev);
  }

  lemma SaysDeconfig(p: Peer, ev: Event)
    ensures Says(ScriptDeconfig, p, p, false, ev)
  {
  }

  lemma Usr1Told(cfg: Config, c: Client, p: Peer, ev: Event)
    requires Knows(c, p)
    ensures var c' := OnUsr1(cfg, c); Knows(c', p) && Speaks(c, c', p, p, ev)
  {
    var d := PerformRenew(c.(waited := 0));
    PerformRenewTold(c.(waited := 0), p, ev);
    hide Renew, Speech, PerformRenew;
    if d.state == RenewRequested {
      RenewTold(if d.timeout > cfg.tryagainTimeout then d.(timeout := cfg.tryagainTimeout) else d, p, p, ev);
    }
  }

  lemma TurnTold(cfg: Config, c: Client, p: Peer, ev: Event)
    requires SocketInv(c) && Knows(c, p)
    ensures var c', p' := Turn(cfg, c, ev), Learns(cfg, c, p, ev);
      Knows(c', p') && Speaks(c, c', p, p', ev)
  {
    hide OnTimeout, OnReadable, OnUsr1, PerformRelease, Speech, AddWaited;
    match ev
    case TimedOut(_, _, _) => TimeoutTold(cfg, c, p, ev);
    case Readable(_, _) => ReadableTold(cfg, c, p, ev);
    case SigUsr1(_) => Usr1Told(cfg, c, p, ev);
    case _ =>
      SpeechDo(c.log, c.log, ScriptNak, p, p, c.state == Rebinding, ev);
      SpeechDo(c.log, c.log, ScriptNak, p, p, false, ev);
      ReleaseTold(c.log, c, p, p, ev);
  }

  lemma {:induction false} RunNext(cfg: Config, c: Client, evs: seq<Event>, ev: Event)
    ensures Run(cfg, c, evs + [ev]) == Turn(cfg, Run(cfg, c, evs), ev)
    decreases |evs|
  {
    hide Turn;
    if evs == [] {
      assert ([] + [ev])[1..] == [];
    } else {
      assert (evs + [ev])[1..] == evs[1..] + [ev];
      RunNext(cfg, Turn(cfg, c, evs[0]), evs[1..], ev);
    }
  }

  lemma {:induction false} RunTold(cfg: Config, c0: Client, evs: seq<Event>)
    requires SocketInv(c0)
    ensures Knows(Run(cfg, c0, evs), Told(cfg, c0, evs))
    decreases |evs|
  {
    hide Turn, Learns, Speaks;
    if evs != [] {
      var pre, ev := evs[..|evs| - 1], evs[|evs| - 1];
      assert evs == pre + [ev];
      RunTold(cfg, c0, pre);
      RunKeepsSockets(cfg, c0, pre);
      RunNext(cfg, c0, pre, ev);
      TurnTold(cfg, Run(cfg, c0, pre), Told(cfg, c0, pre), ev);
    }
  }

  /** In every run, whatever the client sends or configures says what the packets taken
      so far have told it. */
  lemma SpeaksAsTold(cfg: Config, c0: Client, evs: seq<Event>, ev: Event)
    requires IsStart(c0)
    ensures Speaks(Run(cfg, c0, evs), Run(cfg, c0, evs + [ev]), Told(cfg, c0, evs), Told(cfg, c0, evs + [ev]), ev)
  {
    hide Turn, Learns, Speaks;
    RunTold(cfg, c0, evs);
    RunKeepsSockets(cfg, c0, evs);
    RunNext(cfg, c0, evs, ev);
    TurnTold(cfg, Run(cfg, c0, evs), Told(cfg, c0, evs), ev);
    assert (evs + [ev])[..|evs|] == evs;
  }
}
