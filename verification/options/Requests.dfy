/** What a server reads in the client's requests, looked up in the messages as built. */
module OptionRequests {
  import opened Wrappers
  import opened OptionSpec
  import opened OptionLookups
  import opened OptionPacket
  import opened OptionBuilder

  /** Four bytes as a little-endian machine reads them. */
  function Word(data: seq<byte>): nat {
    if |data| == 4 then data[0] as int + 0x100 * data[1] as int + 0x1_0000 * data[2] as int + 0x100_0000 * data[3] as int else 0
  }

  lemma LittleEndianWord(value: nat)
    requires value < 0x1_0000_0000
    ensures Word(LittleEndian(value)) == value
  {
    var a := value / 0x100;
    var b := a / 0x100;
    var c := b / 0x100;
    assert value / 0x1_0000 == b && value / 0x100_0000 == c;
    assert value == 0x100 * a + value % 0x100 && a == 0x100 * b + a % 0x100 && b == 0x100 * c + b % 0x100;
  }

  /** A lookup of `code` gives `data`. */
  predicate Carries(p: Fields, code: byte, data: seq<byte>) {
    match First(Options(p), code)
    case Some(x) => x.entry.data == data
    case None => false
  }

  predicate CarriesWord(p: Fields, code: byte, value: nat) {
    match First(Options(p), code)
    case Some(x) => |x.entry.data| == 4 && Word(x.entry.data) == value
    case None => false
  }

  lemma CarriesAt(p: Fields, k: nat)
    requires k < |Entries(p.options)| && forall j | 0 <= j < k :: Entries(p.options)[j].code != Entries(p.options)[k].code
    ensures Carries(p, Entries(p.options)[k].code, Entries(p.options)[k].data)
  {
    FirstInOptions(p, k);
    hide Options, First, Entries;
  }

  lemma ClientEntriesStart(end: nat, cfg: ClientOptions)
    requires GoodConfig(cfg)
    ensures var es := ClientEntries(end, cfg);
      && |es| > 0 && es[0].code == 57 && es[0].data == [2, 64]
      && (Wanted(cfg.mask, 1) != [] ==> |es| > 1 && es[1].code == 55 && es[1].data == Wanted(cfg.mask, 1))
  {
    hide Wanted, Accepted, GoodConfig, Optional;
  }

  /** The options at the head of every request: its type, 53, and the client id, 61. */
  predicate StartsWith(es: seq<Entry>, cfg: ClientOptions, kind: byte, n: nat) {
    && n == (if cfg.clientId.Some? then 2 else 1) <= |es| && es[0].code == 53 && es[0].data == [kind]
    && (cfg.clientId.Some? ==> IsOption(cfg.clientId.value) && es[1].code == 61 && es[1].data == DataOf(cfg.clientId.value))
  }

  /** The addresses that follow, each once. */
  predicate Addresses(es: seq<Entry>, from: nat, to: nat) {
    && from <= to <= |es| && to <= from + 2
    && (forall j | from <= j < to :: es[j].code == 50 || es[j].code == 54)
    && (to == from + 2 ==> es[from].code != es[from + 1].code)
  }

  /** The greatest size, 57, and the parameter request list, 55, behind them. */
  predicate GoesOnWith(es: seq<Entry>, n: nat, wanted: seq<byte>) {
    && n < |es| && es[n].code == 57 && es[n].data == [2, 64]
    && (wanted != [] ==> n + 1 < |es| && es[n + 1].code == 55 && es[n + 1].data == wanted)
  }

  lemma RequestCarries(p: Fields, cfg: ClientOptions, kind: byte, head: nat, n: nat)
    requires |cfg.mask| == 32
    requires var es := Entries(p.options);
      StartsWith(es, cfg, kind, head) && Addresses(es, head, n) && GoesOnWith(es, n, Wanted(cfg.mask, 1))
    ensures Carries(p, 53, [kind]) && Carries(p, 57, [2, 64])
    ensures cfg.clientId.Some? ==> Carries(p, 61, DataOf(cfg.clientId.value))
    ensures Wanted(cfg.mask, 1) != [] ==> Carries(p, 55, Wanted(cfg.mask, 1))
    ensures forall j | head <= j < n :: Carries(p, Entries(p.options)[j].code, Entries(p.options)[j].data)
  {
    hide Carries, Entries, Wanted;
    var es := Entries(p.options);
    CarriesAt(p, 0);
    if cfg.clientId.Some? {
      CarriesAt(p, 1);
    }
    forall j | head <= j < n ensures Carries(p, es[j].code, es[j].data) {
      CarriesAt(p, j);
    }
    CarriesAt(p, n);
    if Wanted(cfg.mask, 1) != [] {
      CarriesAt(p, n + 1);
    }
  }

  /** The client id and what every request of the client asks for. */
  predicate Asks(p: Fields, cfg: ClientOptions) {
    && |cfg.mask| == 32 && (cfg.clientId.Some? ==> IsOption(cfg.clientId.value) && Carries(p, 61, DataOf(cfg.clientId.value)))
    && Carries(p, 57, [2, 64]) && (Wanted(cfg.mask, 1) != [] ==> Carries(p, 55, Wanted(cfg.mask, 1)))
  }

  lemma Joined(es: seq<Entry>, head: seq<Entry>, words: seq<Entry>, tail: seq<Entry>)
    requires es == head + words + tail
    ensures forall k | 0 <= k < |head| :: es[k] == head[k]
    ensures forall k | 0 <= k < |words| :: es[|head| + k] == words[k]
    ensures forall k | 0 <= k < |tail| :: es[|head| + |words| + k] == tail[k]
  {
  }

  lemma HeaderStarts(cfg: ClientOptions, kind: byte)
    requires GoodConfig(cfg)
    ensures StartsWith(HeaderEntries(kind, cfg), cfg, kind, |HeaderEntries(kind, cfg)|)
  {
  }

  lemma BuiltCarries(p: Fields, cfg: ClientOptions, kind: byte, words: seq<Entry>, end: nat)
    requires GoodConfig(cfg) && Entries(p.options) == HeaderEntries(kind, cfg) + words + ClientEntries(end, cfg)
    requires Addresses(words, 0, |words|)
    ensures Carries(p, 53, [kind]) && Asks(p, cfg)
    ensures forall j | 0 <= j < |words| :: Carries(p, words[j].code, words[j].data)
  {
    var es, head, tail := Entries(p.options), HeaderEntries(kind, cfg), ClientEntries(end, cfg);
    ClientEntriesStart(end, cfg);
    HeaderStarts(cfg, kind);
    hide HeaderEntries, ClientEntries, Entries, Wanted, Carries, GoodConfig;
    Joined(es, head, words, tail);
    var n := |head| + |words|;
    assert Addresses(es, |head|, n) by {
      forall j | |head| <= j < n ensures es[j].code == 50 || es[j].code == 54 {
        assert es[|head| + (j - |head|)] == words[j - |head|];
      }
    }
    assert tail[0] == es[n + 0] && (|tail| > 1 ==> tail[1] == es[n + 1]);
    RequestCarries(p, cfg, kind, |head|, n);
    forall j | 0 <= j < |words| ensures Carries(p, words[j].code, words[j].data) {
      assert es[|head| + j] == words[j];
    }
  }

  lemma CarriedWord(p: Fields, code: byte, value: nat)
    requires value < 0x1_0000_0000 && Carries(p, code, LittleEndian(value))
    ensures CarriesWord(p, code, value)
  {
    LittleEndianWord(value);
    hide First, Options, Word, LittleEndian;
  }

  /** A request, 3, that asks the server it names, 54, for an address, 50. */
  lemma SelectCarries(p: Fields, cfg: ClientOptions, server: nat, requested: nat)
    requires GoodConfig(cfg) && server < 0x1_0000_0000 && requested < 0x1_0000_0000
    requires Entries(p.options) == SelectEntries(cfg, server, requested)
    ensures Carries(p, 53, [3]) && CarriesWord(p, 50, requested) && CarriesWord(p, 54, server) && Asks(p, cfg)
  {
    hide Entries, ClientEntries, HeaderEntries, LittleEndian, Carries, CarriesWord, Asks, GoodConfig;
    var end := HeaderEnd(cfg);
    var words := [Entry(end, 50, LittleEndian(requested)), Entry(end + 6, 54, LittleEndian(server))];
    BuiltCarries(p, cfg, 3, words, end + 12);
    assert Carries(p, words[0].code, words[0].data) && Carries(p, words[1].code, words[1].data);
    CarriedWord(p, 50, requested);
    CarriedWord(p, 54, server);
  }

  /** A discover, 1, that asks for the address last used, if there is one. */
  lemma DiscoverCarries(p: Fields, cfg: ClientOptions, requested: nat)
    requires GoodConfig(cfg) && requested < 0x1_0000_0000
    requires Entries(p.options) == DiscoverEntries(cfg, requested)
    ensures Carries(p, 53, [1]) && (requested != 0 ==> CarriesWord(p, 50, requested)) && Asks(p, cfg)
  {
    hide Entries, ClientEntries, HeaderEntries, LittleEndian, Carries, CarriesWord, Asks, GoodConfig;
    var end := HeaderEnd(cfg);
    if requested == 0 {
      assert HeaderEntries(1, cfg) + [] == HeaderEntries(1, cfg);
      BuiltCarries(p, cfg, 1, [], end);
    } else {
      var words := [Entry(end, 50, LittleEndian(requested))];
      BuiltCarries(p, cfg, 1, words, end + 6);
      assert Carries(p, words[0].code, words[0].data);
      CarriedWord(p, 50, requested);
    }
  }

  /** A renewal is a request, 3. */
  lemma RenewCarries(p: Fields, cfg: ClientOptions)
    requires GoodConfig(cfg) && Entries(p.options) == RenewEntries(cfg)
    ensures Carries(p, 53, [3]) && Asks(p, cfg)
  {
    hide Entries, ClientEntries, HeaderEntries, Carries, Asks, GoodConfig;
    assert HeaderEntries(3, cfg) + [] == HeaderEntries(3, cfg);
    BuiltCarries(p, cfg, 3, [], HeaderEnd(cfg));
  }

  // ----- the optional part -----

  function Total(os: seq<seq<byte>>): nat
    requires GoodOptions(os)
  {
    if os == [] then 0
    else
      assert os[0] in os;
      2 + |DataOf(os[0])| + Total(os[1..])
  }

  /** `e` is the option that `o` gives code, length and data of. */
  predicate IsEntryOf(e: Entry, o: seq<byte>) {
    IsOption(o) && e.code == o[0] && e.data == DataOf(o)
  }

  lemma {:induction false} AllAccepted(size: nat, end: nat, os: seq<seq<byte>>)
    requires GoodOptions(os) && end + Total(os) + 1 < size
    ensures var es := Accepted(size, end, os);
      |es| == |os| && forall k | 0 <= k < |os| :: IsEntryOf(es[k], os[k])
    decreases |os|
  {
    if os != [] {
      assert os[0] in os;
      AllAccepted(size, end + 2 + |DataOf(os[0])|, os[1..]);
    }
  }

  /** The last entries are these options, in order. */
  predicate EndsWith(es: seq<Entry>, os: seq<seq<byte>>) {
    |os| <= |es| && forall k | 0 <= k < |os| :: IsEntryOf(es[|es| - |os| + k], os[k])
  }

  lemma EndsWithLast(head: seq<Entry>, es: seq<Entry>, os: seq<seq<byte>>)
    requires |es| == |os| && forall k | 0 <= k < |os| :: IsEntryOf(es[k], os[k])
    ensures EndsWith(head + es, os)
  {
    hide IsEntryOf;
  }

  lemma ClientEntriesEnd(end: nat, cfg: ClientOptions)
    requires GoodConfig(cfg) && AfterParams(end + 4, cfg.mask) + Total(Optional(cfg)) + 1 < 308
    ensures EndsWith(ClientEntries(end, cfg), Optional(cfg))
  {
    var end' := AfterParams(end + 4, cfg.mask);
    AllAccepted(308, end', Optional(cfg));
    hide Wanted, Accepted, Total, AfterParams, GoodOptions, IsEntryOf, Optional, ParamRequest, GoodConfig;
    EndsWithLast([Entry(end, DHCP_MAX_SIZE, [2, 64])] + ParamRequest(end + 4, cfg.mask), Accepted(308, end', Optional(cfg)), Optional(cfg));
    hide EndsWith;
  }

  /** A request with room for everything ends in the vendor class, the host name and the
      qualified name, so far as they are set, and the further options, in this order. */
  lemma OptionalLast(end: nat, cfg: ClientOptions)
    requires GoodConfig(cfg) && AfterParams(end + 4, cfg.mask) + Total(Optional(cfg)) + 1 < 308
    ensures EndsWith(ClientEntries(end, cfg),
      (if cfg.vendorclass.Some? then [cfg.vendorclass.value] else [])
      + (if cfg.hostname.Some? then [cfg.hostname.value] else [])
      + (if cfg.fqdn.Some? then [cfg.fqdn.value] else []) + cfg.extra)
  {
    OptionalInOrder(cfg);
    ClientEntriesEnd(end, cfg);
    hide *;
  }

  lemma OptionalInOrder(cfg: ClientOptions)
    requires GoodConfig(cfg)
    ensures Optional(cfg) ==
      (if cfg.vendorclass.Some? then [cfg.vendorclass.value] else [])
      + (if cfg.hostname.Some? then [cfg.hostname.value] else [])
      + (if cfg.fqdn.Some? then [cfg.fqdn.value] else []) + cfg.extra
  {
  }
}
