/** The exit codes of the client's loop. */
module ClientExits {
  import opened Wrappers
  import opened ClientSpec

  predicate NeverSetUp(log: seq<Action>) {
    forall k | 0 <= k < |log| :: !log[k].ScriptBound? && !log[k].ScriptRenew?
  }

  /** The client ends with 1 only by a failed search before its first acknowledgement. */
  predicate Failed(n: bool, c: Client) {
    c.exit == Some(1) && n && NeverSetUp(c.log) && c.log != [] && c.log[|c.log| - 1] == ScriptLeaseFail
  }

  predicate ExitInv(n: bool, c: Client) {
    match c.exit
    case None => c.optN ==> n && NeverSetUp(c.log)
    case Some(code) => code == 0 || Failed(n, c)
  }

  /** `d` has gone on from `c` without setting up an address. */
  predicate GoesOn(c: Client, d: Client) {
    d.optN == c.optN && d.exit == c.exit && (NeverSetUp(c.log) ==> NeverSetUp(d.log))
  }

  lemma NeverSetUpDo(log: seq<Action>, a: Action)
    requires !a.ScriptBound? && !a.ScriptRenew?
    ensures NeverSetUp(log) ==> NeverSetUp(log + [a])
  {
  }

  lemma LeaseFailExits(n: bool, cfg: Config, c: Client)
    requires c.exit == None && ExitInv(n, c)
    ensures ExitInv(n, LeaseFail(cfg, c))
  {
    NeverSetUpDo(c.log, ScriptLeaseFail);
    hide NeverSetUp;
  }

  lemma RenewGoesOn(c: Client)
    ensures GoesOn(c, Renew(c)) && GoesOn(c, Rebind(c))
  {
    hide NeverSetUp;
    NeverSetUpDo(c.log, SendRenew(c.xid, c.server, c.requested));
    NeverSetUpDo(c.log, SendRenew(c.xid, 0, c.requested));
    NeverSetUpDo(c.log, ScriptDeconfig);
  }

  lemma TimeoutExits(n: bool, cfg: Config, c: Client, interfaceOk: bool, x: Xid)
    requires c.exit == None && ExitInv(n, c)
    ensures ExitInv(n, OnTimeout(cfg, c, interfaceOk, x))
  {
    hide NeverSetUp, Renew, Rebind, PerformRelease, LeaseFail;
    var d := c.(waited := 0);
    NeverSetUpDo(c.log, SendDiscover(x, c.requested));
    NeverSetUpDo(c.log, SendDiscover(c.xid, c.requested));
    NeverSetUpDo(c.log, SendSelect(c.xid, c.server, c.requested));
    LeaseFailExits(n, cfg, d);
    LeaseFailExits(n, cfg, ChangeListenMode(d, ListenRaw).(state := InitSelecting));
    RenewGoesOn(d);
    RenewGoesOn(ChangeListenMode(d, ListenKernel).(state := Renewing));
  }

  lemma NakGoesOn(c: Client)
    ensures GoesOn(c, OnNak(c))
  {
    hide NeverSetUp;
    NeverSetUpDo(c.log, ScriptNak);
    NeverSetUpDo(c.log + [ScriptNak], ScriptDeconfig);
  }

  lemma DeclineGoesOn(cfg: Config, c: Client, m: Message)
    ensures GoesOn(c, Decline(cfg, c, m))
  {
    hide NeverSetUp;
    var decline := SendDecline(c.server, m.yiaddr);
    NeverSetUpDo(c.log, decline);
    NeverSetUpDo(c.log + [decline], ScriptDeconfig);
  }

  lemma MessageExits(n: bool, cfg: Config, c: Client, m: Message)
    requires c.exit == None && ExitInv(n, c)
    ensures ExitInv(n, OnMessage(cfg, c, m))
  {
    NakGoesOn(c);
    DeclineGoesOn(cfg, c, m);
    assert Bind(c, m).exit == None;
    hide OnNak, Decline, Bind, PerformRelease, NeverSetUp;
  }

  lemma ReleaseGoesOn(c: Client)
    ensures GoesOn(c, PerformRelease(c))
  {
    hide NeverSetUp;
    var a := SendRelease(c.server, c.requested);
    NeverSetUpDo(c.log, a);
    NeverSetUpDo(c.log + [a], ScriptDeconfig);
  }

  lemma PerformRenewGoesOn(c: Client)
    ensures GoesOn(c, PerformRenew(c))
  {
    hide NeverSetUp;
    NeverSetUpDo(c.log, ScriptDeconfig);
  }

  lemma Usr1GoesOn(cfg: Config, c: Client)
    ensures GoesOn(c, OnUsr1(cfg, c))
  {
    hide NeverSetUp, Renew, PerformRenew;
    PerformRenewGoesOn(c.(waited := 0));
    var d := PerformRenew(c.(waited := 0));
    RenewGoesOn(if d.timeout > cfg.tryagainTimeout then d.(timeout := cfg.tryagainTimeout) else d);
  }

  lemma TurnExits(n: bool, cfg: Config, c: Client, ev: Event)
    requires ExitInv(n, c) && c.exit == None
    ensures ExitInv(n, Turn(cfg, c, ev))
  {
    ReleaseGoesOn(c);
    Usr1GoesOn(cfg, c);
    hide OnTimeout, OnMessage, OnUsr1, PerformRelease, NeverSetUp, AddWaited;
    match ev
    case TimedOut(_, ok, x) => TimeoutExits(n, cfg, c, ok, x);
    case Readable(e, ReadMessage(m)) => MessageExits(n, cfg, c.(waited := AddWaited(c.waited, e)), m);
    case _ =>
  }

  lemma {:induction false} RunExits(n: bool, cfg: Config, c: Client, evs: seq<Event>)
    requires ExitInv(n, c) && Possible(cfg, c, evs)
    ensures ExitInv(n, Run(cfg, c, evs))
    decreases |evs|
  {
    hide Turn, ExitInv;
    if evs != [] {
      TurnExits(n, cfg, c, evs[0]);
      RunExits(n, cfg, Turn(cfg, c, evs[0]), evs[1..]);
    }
  }

  /** The client ends with 0, or with 1: then -n was given, no address was ever set up and
      the last thing done is to report the failure. */
  lemma ExitCodes(cfg: Config, c0: Client, evs: seq<Event>)
    requires IsStart(c0) && Possible(cfg, c0, evs) && Run(cfg, c0, evs).exit != None
    ensures var c := Run(cfg, c0, evs);
      c.exit == Some(0) || (c.exit == Some(1) && c0.optN && c.log != [] && c.log[|c.log| - 1] == ScriptLeaseFail
                            && forall k | 0 <= k < |c.log| :: !c.log[k].ScriptBound? && !c.log[k].ScriptRenew?)
  {
    assert ExitInv(c0.optN, c0);
    RunExits(c0.optN, cfg, c0, evs);
    hide Possible, Run;
  }
}
