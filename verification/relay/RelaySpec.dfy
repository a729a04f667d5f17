/** The relay's transaction table as a list of values, newest request first. */
module RelaySpec {
  import opened Wrappers

  const TWO_32 := 0x1_0000_0000
  const MAX_LIFETIME := 120
  const INADDR_ANY := 0
  const INADDR_BROADCAST := 0xffff_ffff

  type Seconds = x: int | 0 <= x < TWO_32

  datatype Entry = Entry(xid: nat, ip: nat, client: nat, timestamp: Seconds)

  /** Ages are differences of unsigned ints. */
  function Age(now: Seconds, e: Entry): nat {
    (now - e.timestamp) % TWO_32
  }

  function KeepFresh(es: seq<Entry>, now: Seconds): seq<Entry> {
    if es == [] then []
    else (if Age(now, es[0]) > MAX_LIFETIME then [] else [es[0]]) + KeepFresh(es[1..], now)
  }

  function Without(es: seq<Entry>, xid: nat): seq<Entry> {
    if es == [] then []
    else (if es[0].xid == xid then [] else [es[0]]) + Without(es[1..], xid)
  }

  /** The place of the first entry with `xid`, or the length of the list. */
  function Find(es: seq<Entry>, xid: nat): (i: nat)
    ensures i <= |es|
    ensures forall j | 0 <= j < i :: es[j].xid != xid
    ensures i < |es| ==> es[i].xid == xid
  {
    if es == [] || es[0].xid == xid then 0 else 1 + Find(es[1..], xid)
  }

  /** The address a reply is sent to. */
  function Target(ip: nat): nat {
    if ip == INADDR_ANY then INADDR_BROADCAST else ip
  }

  /** DISCOVER, REQUEST, DECLINE, RELEASE and INFORM; OFFER, ACK and NAK. */
  predicate FromClientType(kind: int) {
    kind == 1 || kind == 3 || kind == 4 || kind == 7 || kind == 8
  }

  predicate FromServerType(kind: int) {
    kind == 2 || kind == 5 || kind == 6
  }

  /** A packet from a client, a packet from the server, the end of a turn of the loop. */
  datatype Event =
    | Request(xid: nat, kind: int, ip: nat, client: nat, now: Seconds)
    | Reply(xid: nat, kind: int, sent: bool)
    | Expire(now: Seconds)

  datatype Delivery = Delivery(xid: nat, client: nat, ip: nat)

  datatype Table = Table(entries: seq<Entry>, delivered: seq<Delivery>)

  function Step(t: Table, ev: Event): Table {
    match ev
    case Request(xid, kind, ip, client, now) =>
      if FromClientType(kind) then t.(entries := [Entry(xid, ip, client, now)] + t.entries) else t
    case Reply(xid, kind, sent) =>
      var i := Find(t.entries, xid);
      if i == |t.entries| || !FromServerType(kind) then t
      else
        var e := t.entries[i].(ip := Target(t.entries[i].ip));
        if sent then Table(Without(t.entries, xid), t.delivered + [Delivery(xid, e.client, e.ip)])
        else t.(entries := t.entries[i := e])
    case Expire(now) => t.(entries := KeepFresh(t.entries, now))
  }

  function Run(evs: seq<Event>): Table {
    if evs == [] then Table([], []) else Step(Run(evs[..|evs| - 1]), evs[|evs| - 1])
  }

  // ----- conservation -----

  function Held(es: seq<Entry>, xid: nat): nat {
    if es == [] then 0 else (if es[0].xid == xid then 1 else 0) + Held(es[1..], xid)
  }

  function DeliveredTo(ds: seq<Delivery>, xid: nat): nat {
    if ds == [] then 0 else DeliveredTo(ds[..|ds| - 1], xid) + if ds[|ds| - 1].xid == xid then 1 else 0
  }

  /** The types 1, 3, 4, 7 and 8 are a client's, 2, 5 and 6 are a server's. */
  predicate IsAsking(kind: int) {
    kind in {1, 3, 4, 7, 8}
  }

  predicate IsAnswering(kind: int) {
    kind in {2, 5, 6}
  }

  function Recorded(evs: seq<Event>, xid: nat): nat {
    if evs == [] then 0
    else
      var ev := evs[|evs| - 1];
      Recorded(evs[..|evs| - 1], xid) + if ev.Request? && ev.xid == xid && IsAsking(ev.kind) then 1 else 0
  }

  lemma {:induction false} HeldWithout(es: seq<Entry>, xid: nat, x: nat)
    ensures Held(Without(es, xid), x) == if x == xid then 0 else Held(es, x)
  {
    if es != [] {
      HeldWithout(es[1..], xid, x);
      assert [es[0]] + Without(es[1..], xid) == [es[0]] + Without(es[1..], xid);
      assert ([es[0]] + Without(es[1..], xid))[1..] == Without(es[1..], xid);
      assert [] + Without(es[1..], xid) == Without(es[1..], xid);
    }
  }

  lemma {:induction false} HeldFresh(es: seq<Entry>, now: Seconds, x: nat)
    ensures Held(KeepFresh(es, now), x) <= Held(es, x)
  {
    if es != [] {
      HeldFresh(es[1..], now, x);
      assert ([es[0]] + KeepFresh(es[1..], now))[1..] == KeepFresh(es[1..], now);
      assert [] + KeepFresh(es[1..], now) == KeepFresh(es[1..], now);
    }
  }

  lemma {:induction false} HeldUpdate(es: seq<Entry>, i: nat, e: Entry, x: nat)
    requires i < |es| && e.xid == es[i].xid
    ensures Held(es[i := e], x) == Held(es, x)
  {
    if i == 0 {
      assert es[i := e][1..] == es[1..];
    } else {
      assert es[i := e][1..] == es[1..][i - 1 := e];
      HeldUpdate(es[1..], i - 1, e, x);
    }
  }

  lemma {:induction false} HeldAt(es: seq<Entry>, i: nat)
    requires i < |es|
    ensures Held(es, es[i].xid) >= 1
  {
    if i > 0 {
      HeldAt(es[1..], i - 1);
    }
  }

  /** What was asked is answered at most once: over any run and for every transaction, the
      replies delivered and the entries still held never exceed the requests recorded. */
  lemma {:induction false} Conservation(evs: seq<Event>, x: nat)
    ensures DeliveredTo(Run(evs).delivered, x) + Held(Run(evs).entries, x) <= Recorded(evs, x)
  {
    if evs != [] {
      var ev, t := evs[|evs| - 1], Run(evs[..|evs| - 1]);
      Conservation(evs[..|evs| - 1], x);
      match ev
      case Request(xid, kind, ip, client, now) =>
        assert ([Entry(xid, ip, client, now)] + t.entries)[1..] == t.entries;
      case Reply(xid, kind, sent) =>
        var i := Find(t.entries, xid);
        if i < |t.entries| && FromServerType(kind) {
          var e := t.entries[i].(ip := Target(t.entries[i].ip));
          HeldWithout(t.entries, xid, x);
          HeldUpdate(t.entries, i, e, x);
          HeldAt(t.entries, i);
          var d := Delivery(xid, e.client, e.ip);
          assert (t.delivered + [d])[..|t.delivered|] == t.delivered;
        }
      case Expire(now) =>
        HeldFresh(t.entries, now, x);
    }
  }

  // ----- which request an entry stands for -----

  /** Event `i` of a run is a request that the relay recorded. */
  predicate IsRecorded(evs: seq<Event>, i: nat) {
    i < |evs| && evs[i].Request? && IsAsking(evs[i].kind)
  }

  /** An event ends a waiting request: a reply delivered for its transaction, or a turn's
      end at which it is too old. */
  predicate Ends(ev: Event, e: Entry) {
    match ev
    case Request(_, _, _, _, _) => false
    case Reply(xid, kind, sent) => xid == e.xid && IsAnswering(kind) && sent
    case Expire(now) => (now - e.timestamp) % 0x1_0000_0000 > 120
  }

  function EntryOf(evs: seq<Event>, i: nat): Entry
    requires IsRecorded(evs, i)
  {
    Entry(evs[i].xid, evs[i].ip, evs[i].client, evs[i].now)
  }

  /** Request `i` is still waiting for its reply, by the run's events alone. */
  predicate Waiting(evs: seq<Event>, i: nat) {
    IsRecorded(evs, i) && forall j | i < j < |evs| :: !Ends(evs[j], EntryOf(evs, i))
  }

  /** The waiting requests below place `n`, the newest first. */
  function WaitingBelow(evs: seq<Event>, n: nat): (r: seq<Entry>)
    requires n <= |evs|
  {
    if n == 0 then []
    else (if Waiting(evs, n - 1) then [EntryOf(evs, n - 1)] else []) + WaitingBelow(evs, n - 1)
  }

  /** Addresses as replies see them: a failed attempt rewrites an unset address early. */
  function Normal(e: Entry): Entry {
    e.(ip := Target(e.ip))
  }

  function NormalAll(es: seq<Entry>): (r: seq<Entry>)
    ensures |r| == |es| && forall k | 0 <= k < |es| :: r[k] == Normal(es[k])
  {
    seq(|es|, k requires 0 <= k < |es| => Normal(es[k]))
  }

  /** The entries that an event does not end. */
  function Survivors(es: seq<Entry>, ev: Event): seq<Entry> {
    if es == [] then []
    else (if Ends(ev, es[0]) then [] else [es[0]]) + Survivors(es[1..], ev)
  }

  lemma {:induction false} SurvivorsNormal(es: seq<Entry>, ev: Event)
    ensures NormalAll(Survivors(es, ev)) == Survivors(NormalAll(es), ev)
  {
    if es != [] {
      var e, rest := es[0], es[1..];
      SurvivorsNormal(rest, ev);
      EndsNormal(e, ev);
      assert es == [e] + rest;
      NormalStep(e, rest);
      NormalStep(e, Survivors(rest, ev));
      hide Normal, NormalAll, Ends;
      SurvivorsStep(e, rest, ev);
      SurvivorsStep(Normal(e), NormalAll(rest), ev);
    }
  }

  /** An event does not look at addresses. */
  lemma EndsNormal(e: Entry, ev: Event)
    ensures Ends(ev, Normal(e)) <==> Ends(ev, e)
  {
  }

  lemma NormalStep(e: Entry, es: seq<Entry>)
    ensures NormalAll([e] + es) == [Normal(e)] + NormalAll(es)
  {
  }

  lemma SurvivorsStep(e: Entry, es: seq<Entry>, ev: Event)
    ensures Survivors([e] + es, ev) == if Ends(ev, e) then Survivors(es, ev) else [e] + Survivors(es, ev)
  {
    hide Ends;
    assert ([e] + es)[1..] == es;
    assert [] + Survivors(es, ev) == Survivors(es, ev);
  }

  lemma {:induction false} SurvivorsIsFresh(es: seq<Entry>, now: Seconds)
    ensures Survivors(es, Expire(now)) == KeepFresh(es, now)
  {
    if es != [] {
      SurvivorsIsFresh(es[1..], now);
    }
  }

  lemma {:induction false} SurvivorsIsWithout(es: seq<Entry>, xid: nat, kind: int)
    requires FromServerType(kind)
    ensures Survivors(es, Reply(xid, kind, true)) == Without(es, xid)
  {
    if es != [] {
      SurvivorsIsWithout(es[1..], xid, kind);
    }
  }

  lemma {:induction false} AllSurvive(es: seq<Entry>, ev: Event)
    requires forall e | e in es :: !Ends(ev, e)
    ensures Survivors(es, ev) == es
  {
    if es != [] {
      assert es[0] in es;
      AllSurvive(es[1..], ev);
    }
  }

  /** One event more leaves the waiting requests that it does not end. */
  lemma {:induction false} WaitingAfter(pre: seq<Event>, ev: Event, n: nat)
    requires n <= |pre|
    ensures WaitingBelow(pre + [ev], n) == Survivors(WaitingBelow(pre, n), ev)
  {
    if n > 0 {
      WaitingAfter(pre, ev, n - 1);
      var evs, i := pre + [ev], n - 1;
      assert evs[i] == pre[i];
      if IsRecorded(pre, i) {
        assert forall j | i < j < |pre| :: evs[j] == pre[j];
        assert evs[|pre|] == ev;
        assert Waiting(evs, i) <==> Waiting(pre, i) && !Ends(ev, EntryOf(pre, i));
        assert ([EntryOf(pre, i)] + WaitingBelow(pre, i))[1..] == WaitingBelow(pre, i);
      }
      assert [] + WaitingBelow(pre, i) == WaitingBelow(pre, i);
    }
  }

  /** A step on the table does to its entries what the event does to waiting requests. */
  lemma StepSurvivors(t: Table, ev: Event)
    ensures NormalAll(Step(t, ev).entries) ==
      (if ev.Request? && FromClientType(ev.kind) then [Normal(Entry(ev.xid, ev.ip, ev.client, ev.now))] else [])
      + Survivors(NormalAll(t.entries), ev)
  {
    SurvivorsNormal(t.entries, ev);
    match ev
    case Request(xid, kind, ip, client, now) =>
      AllSurvive(t.entries, ev);
      NormalStep(Entry(xid, ip, client, now), t.entries);
      hide Survivors, NormalAll, Normal;
    case Reply(xid, kind, sent) =>
      ReplySurvivors(t, xid, kind, sent);
    case Expire(now) =>
      SurvivorsIsFresh(t.entries, now);
      hide Survivors, KeepFresh, NormalAll;
  }

  lemma ReplySurvivors(t: Table, xid: nat, kind: int, sent: bool)
    ensures NormalAll(Step(t, Reply(xid, kind, sent)).entries) == NormalAll(Survivors(t.entries, Reply(xid, kind, sent)))
  {
    var i := Find(t.entries, xid);
    if i == |t.entries| || !FromServerType(kind) || !sent {
      AllSurvive(t.entries, Reply(xid, kind, sent));
      hide Survivors;
    } else {
      SurvivorsIsWithout(t.entries, xid, kind);
      hide Survivors, Without, NormalAll;
    }
  }

  /** Over any run the table holds exactly the requests that still wait, newest first. */
  lemma {:induction false} TableHoldsWaiting(evs: seq<Event>)
    ensures NormalAll(Run(evs).entries) == NormalAll(WaitingBelow(evs, |evs|))
  {
    if evs != [] {
      var pre, ev := evs[..|evs| - 1], evs[|evs| - 1];
      assert evs == pre + [ev];
      TableHoldsWaiting(pre);
      StepSurvivors(Run(pre), ev);
      WaitingAfter(pre, ev, |pre|);
      SurvivorsNormal(WaitingBelow(pre, |pre|), ev);
      hide Survivors, Run, Step;
      var head: seq<Entry> := if Waiting(evs, |pre|) then [EntryOf(evs, |pre|)] else [];
      assert WaitingBelow(evs, |evs|) == head + WaitingBelow(evs, |pre|);
      assert Waiting(evs, |pre|) <==> IsRecorded(evs, |pre|);
      assert NormalAll(head + WaitingBelow(evs, |pre|)) == NormalAll(head) + NormalAll(WaitingBelow(evs, |pre|));
    }
  }

  lemma {:induction false} WaitingAt(evs: seq<Event>, n: nat, k: nat) returns (i: nat)
    requires n <= |evs| && k < |WaitingBelow(evs, n)|
    ensures i < n && Waiting(evs, i) && WaitingBelow(evs, n)[k] == EntryOf(evs, i)
    ensures forall j | i < j < n && Waiting(evs, j) :: EntryOf(evs, j) in WaitingBelow(evs, n)[..k]
    ensures k == 0 ==> forall j | i < j < n :: !Waiting(evs, j)
  {
    if Waiting(evs, n - 1) {
      if k == 0 {
        i := n - 1;
      } else {
        i := WaitingAt(evs, n - 1, k - 1);
        var rest := WaitingBelow(evs, n - 1);
        assert WaitingBelow(evs, n)[..k] == [EntryOf(evs, n - 1)] + rest[..k - 1];
      }
    } else {
      assert WaitingBelow(evs, n) == WaitingBelow(evs, n - 1);
      i := WaitingAt(evs, n - 1, k);
    }
  }

  /** A reply goes to the client and the address of the newest request of its transaction
      that still waits. */
  lemma ReplyGoesToNewest(evs: seq<Event>, ev: Event) returns (i: nat)
    requires ev.Reply? && Step(Run(evs), ev).delivered != Run(evs).delivered
    ensures i < |evs| && Waiting(evs, i) && evs[i].xid == ev.xid
    ensures forall j | i < j < |evs| && Waiting(evs, j) :: evs[j].xid != ev.xid
    ensures Step(Run(evs), ev).delivered == Run(evs).delivered + [Delivery(ev.xid, evs[i].client, Target(evs[i].ip))]
  {
    TableHoldsWaiting(evs);
    var es, ws := Run(evs).entries, WaitingBelow(evs, |evs|);
    var k := Find(es, ev.xid);
    assert NormalAll(es)[k] == NormalAll(ws)[k];
    i := WaitingAt(evs, |evs|, k);
    forall j | i < j < |evs| && Waiting(evs, j) ensures evs[j].xid != ev.xid {
      var m :| 0 <= m < k && ws[..k][m] == EntryOf(evs, j);
      assert NormalAll(es)[m] == NormalAll(ws)[m];
    }
    assert Target(Target(evs[i].ip)) == Target(evs[i].ip);
  }

  // ----- what is delivered -----

  /** The newest request of a transaction, below place `n`, that still waits. */
  function Newest(evs: seq<Event>, n: nat, xid: nat): (i: Option<nat>)
    requires n <= |evs|
    ensures i.Some? ==> i.value < n && Waiting(evs, i.value) && evs[i.value].xid == xid
    ensures forall j | (if i.Some? then i.value < j else 0 <= j) && j < n && Waiting(evs, j) :: evs[j].xid != xid
  {
    if n == 0 then None
    else if Waiting(evs, n - 1) && evs[n - 1].xid == xid then Some(n - 1)
    else Newest(evs, n - 1, xid)
  }

  /** What an event after `evs` delivers: a server's reply that can be sent goes to the
      newest waiting request of its transaction, by broadcast if that had no address. */
  function Answers(evs: seq<Event>, ev: Event): seq<Delivery> {
    if ev.Reply? && ev.sent && IsAnswering(ev.kind) then
      match Newest(evs, |evs|, ev.xid)
      case Some(i) => [Delivery(ev.xid, evs[i].client, if evs[i].ip == 0 then 0xffff_ffff else evs[i].ip)]
      case None => []
    else []
  }

  /** All deliveries of a run, by its events alone. */
  function Deliveries(evs: seq<Event>): seq<Delivery> {
    if evs == [] then []
    else Deliveries(evs[..|evs| - 1]) + Answers(evs[..|evs| - 1], evs[|evs| - 1])
  }

  lemma {:induction false} WaitingHeld(evs: seq<Event>, n: nat, i: nat) returns (k: nat)
    requires i < n <= |evs| && Waiting(evs, i)
    ensures k < |WaitingBelow(evs, n)| && WaitingBelow(evs, n)[k] == EntryOf(evs, i)
  {
    hide Waiting;
    if i == n - 1 {
      k := 0;
    } else {
      k := WaitingHeld(evs, n - 1, i);
      if Waiting(evs, n - 1) {
        k := k + 1;
      }
    }
  }

  /** A waiting request is found in the table. */
  lemma WaitingFound(evs: seq<Event>, i: nat)
    requires i < |evs| && Waiting(evs, i)
    ensures Find(Run(evs).entries, evs[i].xid) < |Run(evs).entries|
  {
    var k := WaitingHeld(evs, |evs|, i);
    TableHoldsWaiting(evs);
    var es, ws := Run(evs).entries, WaitingBelow(evs, |evs|);
    assert NormalAll(es)[k] == NormalAll(ws)[k];
    assert es[k].xid == evs[i].xid;
  }

  lemma StepDelivers(evs: seq<Event>, ev: Event)
    ensures Step(Run(evs), ev).delivered == Run(evs).delivered + Answers(evs, ev)
  {
    var t, n := Run(evs), if ev.Reply? then Newest(evs, |evs|, ev.xid) else None;
    if ev.Reply? && ev.sent && FromServerType(ev.kind) {
      if Find(t.entries, ev.xid) < |t.entries| {
        hide Run, Waiting, Without;
        assert |Step(t, ev).delivered| == |t.delivered| + 1;
        var i := ReplyGoesToNewest(evs, ev);
        assert n == Some(i);
      } else if n.Some? {
        WaitingFound(evs, n.value);
      }
    }
  }

  /** Over any run the deliveries are exactly these, in order. */
  lemma {:induction false} DeliveredExactly(evs: seq<Event>)
    ensures Run(evs).delivered == Deliveries(evs)
  {
    if evs != [] {
      var pre, ev := evs[..|evs| - 1], evs[|evs| - 1];
      DeliveredExactly(pre);
      StepDelivers(pre, ev);
    }
  }
}
