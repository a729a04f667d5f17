/** The relay's linked list behind a sentinel, and the functions that change it. */
module Relay {
  import opened Wrappers
  import opened RelaySpec

  class Item {
    const xid: nat
    const client: nat
    const timestamp: Seconds
    var ip: nat
    var next: Item?

    constructor (xid: nat, ip: nat, client: nat, timestamp: Seconds, next: Item?)
      ensures Value() == Entry(xid, ip, client, timestamp) && this.next == next
    {
      this.xid, this.client, this.timestamp := xid, client, timestamp;
      this.ip, this.next := ip, next;
    }

    ghost function Value(): Entry
      reads this`ip
    {
      Entry(xid, ip, client, timestamp)
    }
  }

  function At(items: seq<Item>, i: int): Item? {
    if 0 <= i < |items| then items[i] else null
  }

  /** The items behind `last` are those of `items`, in order. */
  ghost predicate Chained(last: Item, items: seq<Item>)
    reads last, items
  {
    && last.next == At(items, 0)
    && (forall i {:trigger items[i].next} | 0 <= i < |items| :: items[i].next == At(items, i + 1))
    && last !in items
    && (forall i, j | 0 <= i < j < |items| :: items[i] != items[j])
  }

  function Before(list: Item, items: seq<Item>, k: nat): Item
    requires k <= |items|
  {
    if k == 0 then list else items[k - 1]
  }

  lemma RemovedIndex<T>(s: seq<T>, k: nat)
    requires k < |s|
    ensures var t := RemovedAt(s, k);
      |t| == |s| - 1 && forall i | 0 <= i < |t| :: t[i] == s[if i < k then i else i + 1]
  {
  }

  lemma FreshStep(es: seq<Entry>, k: nat, now: Seconds)
    requires k < |es|
    ensures Age(now, es[k]) > MAX_LIFETIME ==>
      es[..k] + KeepFresh(es[k..], now) == RemovedAt(es, k)[..k] + KeepFresh(RemovedAt(es, k)[k..], now)
    ensures Age(now, es[k]) <= MAX_LIFETIME ==>
      es[..k] + KeepFresh(es[k..], now) == es[..k + 1] + KeepFresh(es[k + 1..], now)
  {
    assert es[k..][1..] == es[k + 1..];
    assert RemovedAt(es, k)[..k] == es[..k] && RemovedAt(es, k)[k..] == es[k + 1..];
    assert [] + KeepFresh(es[k + 1..], now) == KeepFresh(es[k + 1..], now);
    assert es[..k] + ([es[k]] + KeepFresh(es[k + 1..], now)) == es[..k + 1] + KeepFresh(es[k + 1..], now);
  }

  lemma WithoutStep(es: seq<Entry>, k: nat, xid: nat)
    requires k < |es|
    ensures es[k].xid == xid ==>
      es[..k] + Without(es[k..], xid) == RemovedAt(es, k)[..k] + Without(RemovedAt(es, k)[k..], xid)
    ensures es[k].xid != xid ==>
      es[..k] + Without(es[k..], xid) == es[..k + 1] + Without(es[k + 1..], xid)
  {
    assert es[k..][1..] == es[k + 1..];
    assert RemovedAt(es, k)[..k] == es[..k] && RemovedAt(es, k)[k..] == es[k + 1..];
    assert [] + Without(es[k + 1..], xid) == Without(es[k + 1..], xid);
    assert es[..k] + ([es[k]] + Without(es[k + 1..], xid)) == es[..k + 1] + Without(es[k + 1..], xid);
  }

  class RelayTable {
    const list: Item  // dhcprelay_xid_list, of which only `next` is used
    ghost var items: seq<Item>
    ghost var entries: seq<Entry>  // their values
    ghost var nodes: set<Item>  // the sentinel and every item allocated so far
    var delivered: seq<Delivery>

    ghost predicate Valid()
      reads this, list, items
    {
      && Chained(list, items) && list in nodes && (forall k | 0 <= k < |items| :: items[k] in nodes)
      && |entries| == |items| && forall k | 0 <= k < |items| :: entries[k] == items[k].Value()
    }

    ghost function Value(): Table
      reads this
    {
      Table(entries, delivered)
    }

    constructor ()
      ensures Valid() && Value() == Table([], []) && fresh(nodes)
    {
      list := new Item(0, 0, 0, 0, null);
      items, entries, nodes := [], [], {list};
      delivered := [];
    }

    /** xid_add */
    method Add(xid: nat, ip: nat, client: nat, now: Seconds)
      requires Valid()
      modifies this`items, this`entries, this`nodes, list
      ensures Valid() && fresh(nodes - old(nodes))
      ensures entries == [Entry(xid, ip, client, now)] + old(entries)
    {
      var item := new Item(xid, ip, client, now, list.next);
      assert item !in nodes;
      list.next := item;
      ghost var was := items;
      items, entries, nodes := [item] + items, [item.Value()] + entries, nodes + {item};
      assert forall k | 0 < k < |items| :: items[k] == was[k - 1];
    }

    /** `last->next = item->next`, and on to the item behind. */
    method Unlink(last: Item, item: Item, ghost k: nat) returns (next: Item?)
      requires Valid() && k < |items| && item == items[k] && last == Before(list, items, k)
      modifies this`items, this`entries, last`next
      ensures Valid() && items == RemovedAt(old(items), k) && |items| == old(|items|) - 1
      ensures entries == RemovedAt(old(entries), k)
      ensures last == Before(list, items, k) && next == At(items, k)
    {
      RemovedIndex(items, k);
      RemovedIndex(entries, k);
      hide RemovedAt;
      last.next := item.next;
      items, entries := RemovedAt(items, k), RemovedAt(entries, k);
      next := last.next;
    }

    /** xid_expire */
    method Expire(now: Seconds)
      requires Valid()
      modifies this`items, this`entries, nodes
      ensures Valid() && entries == KeepFresh(old(entries), now)
    {
      hide KeepFresh, RemovedAt;
      var item, last := list.next, list;
      ghost var k := 0;
      ghost var goal := KeepFresh(entries, now);
      assert entries[0..] == entries && entries[..0] + goal == goal;
      while item != null
        invariant Valid() && k <= |items| && item == At(items, k) && last == Before(list, items, k)
        invariant entries[..k] + KeepFresh(entries[k..], now) == goal
        decreases |items| - k
      {
        FreshStep(entries, k, now);
        if (now - item.timestamp) % TWO_32 > MAX_LIFETIME {
          item := Unlink(last, item, k);
        } else {
          last := item;
          item := item.next;
          k := k + 1;
        }
      }
      NothingFresh(now);
      assert entries[k..] == [] && entries[..k] == entries;
    }

    /** xid_del */
    method Delete(xid: nat)
      requires Valid()
      modifies this`items, this`entries, nodes
      ensures Valid() && entries == Without(old(entries), xid)
    {
      hide Without, RemovedAt;
      var item, last := list.next, list;
      ghost var k := 0;
      ghost var goal := Without(entries, xid);
      assert entries[0..] == entries && entries[..0] + goal == goal;
      while item != null
        invariant Valid() && k <= |items| && item == At(items, k) && last == Before(list, items, k)
        invariant entries[..k] + Without(entries[k..], xid) == goal
        decreases |items| - k
      {
        WithoutStep(entries, k, xid);
        if item.xid == xid {
          item := Unlink(last, item, k);
        } else {
          last := item;
          item := item.next;
          k := k + 1;
        }
      }
      NothingHeld(xid);
      assert entries[k..] == [] && entries[..k] == entries;
    }

    /** xid_find */
    method FindItem(xid: nat) returns (item: Item?)
      requires Valid()
      ensures item == At(items, Find(entries, xid))
    {
      item := list.next;
      ghost var k := 0;
      while item != null
        invariant k <= Find(entries, xid) && item == At(items, k)
        decreases |items| - k
      {
        if item.xid == xid {
          break;
        }
        item := item.next;
        k := k + 1;
      }
    }

    /** pass_to_server: records the request; forwarding it is not modelled. */
    method PassToServer(xid: nat, kind: int, ip: nat, client: nat, now: Seconds)
      requires Valid()
      modifies this, list
      ensures Valid() && fresh(nodes - old(nodes))
      ensures Value() == Step(old(Value()), Request(xid, kind, ip, client, now))
    {
      if kind != 1 && kind != 3 && kind != 4 && kind != 7 && kind != 8 {
        return;
      }
      Add(xid, ip, client, now);
    }

    /** An unset address becomes the broadcast address, in the table too. */
    method FixAddress(item: Item, ghost k: nat)
      requires Valid() && k < |items| && item == items[k]
      modifies this`entries, item`ip
      ensures Valid() && item.ip == Target(old(item.ip))
      ensures entries == old(entries)[k := old(item.Value()).(ip := Target(old(item.ip)))]
    {
      if item.ip == INADDR_ANY {
        item.ip := INADDR_BROADCAST;
      }
      entries := entries[k := item.Value()];
    }

    /** pass_to_client; `sent` is the outcome of the send. */
    method PassToClient(xid: nat, kind: int, sent: bool)
      requires Valid()
      modifies this`items, this`entries, this`delivered, nodes
      ensures Valid()
      ensures Value() == Step(old(Value()), Reply(xid, kind, sent))
    {
      hide Without;
      var item := FindItem(xid);
      ghost var es, k := entries, Find(entries, xid);
      if item == null {
        assert k == |es|;
        return;
      }
      assert k < |es| && es[k] == item.Value();
      if kind != 2 && kind != 5 && kind != 6 {
        return;
      }
      FixAddress(item, k);
      if !sent {
        return;
      }
      delivered := delivered + [Delivery(xid, item.client, item.ip)];
      Delete(xid);
      WithoutIgnoresAddress(es, k, es[k].(ip := Target(es[k].ip)), xid);
    }

    /** What a turn of the loop ends with. */
    method EndTurn(now: Seconds)
      requires Valid()
      modifies this`items, this`entries, nodes
      ensures Valid()
      ensures Value() == Step(old(Value()), RelaySpec.Expire(now))
    {
      Expire(now);
    }
  }

  lemma NothingFresh(now: Seconds)
    ensures KeepFresh([], now) == []
  {
  }

  lemma NothingHeld(xid: nat)
    ensures Without([], xid) == []
  {
  }

  lemma {:induction false} WithoutIgnoresAddress(es: seq<Entry>, k: nat, e: Entry, xid: nat)
    requires k < |es| && es[k].xid == xid == e.xid
    ensures Without(es[k := e], xid) == Without(es, xid)
  {
    if k > 0 {
      assert es[k := e][1..] == es[1..][k - 1 := e];
      WithoutIgnoresAddress(es[1..], k - 1, e, xid);
    } else {
      assert es[k := e][1..] == es[1..];
    }
  }
}