/** The options of the client's requests: what init_packet and add_client_options build
    with the appenders is, option for option, the list the configuration asks for. */
module OptionBuilder {
  import opened Wrappers
  import opened OptionSpec
  import opened OptionAppend
  import opened OptionPacket
  import opened DivMod

  const DHCP_REQUESTED_IP: byte := 0x32
  const DHCP_MESSAGE_TYPE: byte := 0x35
  const DHCP_SERVER_ID: byte := 0x36
  const DHCP_PARAM_REQ: byte := 0x37
  const DHCP_MAX_SIZE: byte := 0x39
  const DHCP_CLIENT_ID: byte := 0x3d
  const DHCPDISCOVER: byte := 1
  const DHCPREQUEST: byte := 3

  /** htons(IP_UDP_DHCP_SIZE), 576 in network order, as a little-endian machine holds it. */
  const MAX_SIZE_NET := 0x4002

  // ----- additions, as a list -----

  predicate GoodOption(o: seq<byte>) {
    IsOption(o) && o[0] != DHCP_PADDING && o[0] != DHCP_END
  }

  predicate GoodOptions(os: seq<seq<byte>>) {
    forall o | o in os :: GoodOption(o)
  }

  function AddAll(f: seq<byte>, os: seq<seq<byte>>): (g: seq<byte>)
    requires GoodOptions(os)
    ensures |g| == |f|
    decreases |os|
  {
    if os == [] then f
    else
      assert os[0] in os;
      AddAll(Added(f, os[0]), os[1..])
  }

  /** The options of `os` that fit, one after the other, behind place `end` of a field of
      `size` bytes. */
  function Accepted(size: nat, end: nat, os: seq<seq<byte>>): seq<Entry>
    requires GoodOptions(os)
    decreases |os|
  {
    if os == [] then []
    else
      assert os[0] in os;
      var data := DataOf(os[0]);
      if end + (2 + |data|) + 1 < size
      then [Entry(end, os[0][0], data)] + Accepted(size, end + 2 + |data|, os[1..])
      else Accepted(size, end, os[1..])
  }

  /** A sequence of additions adds, in order, exactly the options that fit. */
  lemma {:induction false} AddAllAddsAccepted(f: seq<byte>, os: seq<seq<byte>>)
    requires GoodOptions(os) && Terminated(f)
    ensures Terminated(AddAll(f, os))
    ensures Entries(AddAll(f, os)) == Entries(f) + Accepted(|f|, EndOf(f), os)
    decreases |os|
  {
    hide Appended, Parse;
    if os == [] {
      assert Entries(f) + [] == Entries(f);
    } else {
      assert os[0] in os;
      var data := DataOf(os[0]);
      if Fits(f, data) {
        AppendParses(f, os[0][0], data);
      }
      AddAllAddsAccepted(Added(f, os[0]), os[1..]);
    }
  }

  lemma {:induction false} AddAllConcat(f: seq<byte>, a: seq<seq<byte>>, b: seq<seq<byte>>)
    requires GoodOptions(a) && GoodOptions(b)
    ensures GoodOptions(a + b) && AddAll(f, a + b) == AddAll(AddAll(f, a), b)
    decreases |a|
  {
    if a == [] {
      assert a + b == b;
    } else {
      assert a[0] in a;
      assert (a + b)[1..] == a[1..] + b;
      AddAllConcat(Added(f, a[0]), a[1..], b);
    }
  }

  // ----- the parameter request list -----

  /** The bit of option `i` in a mask of 256 bits. */
  predicate Bit(mask: seq<byte>, i: nat)
    requires |mask| == 32 && i < 256
  {
    assert Pow2(i % 8) > 0 by { Pow2Positive(i % 8); }
    (mask[i / 8] / Pow2(i % 8)) % 2 == 1
  }

  /** The set bits from `i` on, below the code of the end mark, in ascending order. */
  function Wanted(mask: seq<byte>, i: nat): (r: seq<byte>)
    requires |mask| == 32 && i <= 255
    ensures |r| <= 255 - i
    decreases 255 - i
  {
    if i == 255 then []
    else (if Bit(mask, i) then [i as byte] else []) + Wanted(mask, i + 1)
  }

  lemma {:induction false} WantedExactly(mask: seq<byte>, i: nat)
    requires |mask| == 32 && i <= 255
    ensures forall b: byte :: b in Wanted(mask, i) <==> i <= b < 255 && Bit(mask, b)
    ensures forall j, k | 0 <= j < k < |Wanted(mask, i)| :: Wanted(mask, i)[j] < Wanted(mask, i)[k]
    decreases 255 - i
  {
    hide Bit;
    if i < 255 {
      WantedExactly(mask, i + 1);
      var rest := Wanted(mask, i + 1);
      forall k | 0 <= k < |rest| ensures i < rest[k] {
        assert rest[k] in rest;
      }
    }
  }

  /** A mask with one bit set: bit 0 of a byte is its lowest. */
  predicate OneBit(mask: seq<byte>, i: nat) {
    && |mask| == 32 && i < 256
    && mask[i / 8] == [1, 2, 4, 8, 16, 32, 64, 128][i % 8]
    && forall k | 0 <= k < 32 && k != i / 8 :: mask[k] == 0
  }

  lemma PowersOfTwo(n: nat)
    requires n < 8
    ensures Pow2(n) == [1, 2, 4, 8, 16, 32, 64, 128][n]
  {
  }

  lemma OneBitSet(mask: seq<byte>, i: nat, j: nat)
    requires OneBit(mask, i) && j < 256
    ensures Bit(mask, j) <==> j == i
  {
    PowersOfTwo(i % 8);
    PowersOfTwo(j % 8);
    hide Pow2;
  }

  /** Such a mask asks for that option alone. */
  lemma {:induction false} WantsOne(mask: seq<byte>, i: nat, from: nat)
    requires i < 255 && from <= 255 && OneBit(mask, i)
    ensures Wanted(mask, from) == if from <= i then [i] else []
    decreases 255 - from
  {
    hide Bit, OneBit;
    if from < 255 {
      OneBitSet(mask, i, from);
      WantsOne(mask, i, from + 1);
    }
  }

  lemma WantedStep(mask: seq<byte>, i: nat, all: seq<byte>, len: nat)
    requires |mask| == 32 && i < 255 && len <= |all| && all[len..] == Wanted(mask, i)
    ensures if Bit(mask, i) then len < |all| && all[len] == i && all[len + 1..] == Wanted(mask, i + 1)
            else all[len..] == Wanted(mask, i + 1)
  {
    hide Bit;
    if Bit(mask, i) {
      assert Wanted(mask, i) == [i as byte] + Wanted(mask, i + 1);
      assert all[len] == all[len..][0] && all[len + 1..] == all[len..][1..];
    } else {
      assert Wanted(mask, i) == Wanted(mask, i + 1);
    }
  }

  // ----- add_client_options -----

  /** The parts of client_config that end up in a request. */
  datatype ClientOptions = ClientOptions(
    clientId: Option<seq<byte>>, mask: seq<byte>,
    vendorclass: Option<seq<byte>>, hostname: Option<seq<byte>>, fqdn: Option<seq<byte>>,
    extra: seq<seq<byte>>)

  /** The client id, unless suppressed, is a type byte and a MAC address. */
  predicate GoodConfig(cfg: ClientOptions) {
    && |cfg.mask| == 32
    && (cfg.clientId.Some? ==>
          GoodOption(cfg.clientId.value) && cfg.clientId.value[0] == DHCP_CLIENT_ID && |DataOf(cfg.clientId.value)| == 7)
    && (cfg.vendorclass.Some? ==> GoodOption(cfg.vendorclass.value))
    && (cfg.hostname.Some? ==> GoodOption(cfg.hostname.value))
    && (cfg.fqdn.Some? ==> GoodOption(cfg.fqdn.value))
    && GoodOptions(cfg.extra)
  }

  function Listed(o: Option<seq<byte>>): seq<seq<byte>> {
    if o.Some? then [o.value] else []
  }

  /** The options behind the parameter request list, in the order in which they are tried. */
  function Optional(cfg: ClientOptions): (os: seq<seq<byte>>)
    requires GoodConfig(cfg)
    ensures GoodOptions(os)
  {
    Listed(cfg.vendorclass) + Listed(cfg.hostname) + Listed(cfg.fqdn) + cfg.extra
  }

  /** The parameter request list at place `end`; none if nothing is requested. */
  function ParamRequest(end: nat, mask: seq<byte>): seq<Entry>
    requires |mask| == 32
  {
    if Wanted(mask, 1) == [] then [] else [Entry(end, DHCP_PARAM_REQ, Wanted(mask, 1))]
  }

  function AfterParams(end: nat, mask: seq<byte>): nat
    requires |mask| == 32
  {
    if Wanted(mask, 1) == [] then end else end + 2 + |Wanted(mask, 1)|
  }

  /** What add_client_options puts behind place `end`. */
  function ClientEntries(end: nat, cfg: ClientOptions): seq<Entry>
    requires GoodConfig(cfg)
  {
    [Entry(end, DHCP_MAX_SIZE, [2, 64])]
    + ParamRequest(end + 4, cfg.mask)
    + Accepted(OPTIONS_SIZE, AfterParams(end + 4, cfg.mask), Optional(cfg))
  }

  /** The loop over the mask and the list option around its result.  There is no bounds
      check; the caller must have room for the list and an end mark. */
  method AddParamRequest(packet: DhcpPacket, mask: seq<byte>)
    requires packet.Valid() && Terminated(packet.options[..]) && |mask| == 32
    requires Room(packet.options[..], Wanted(mask, 1))
    modifies packet.options
    ensures packet.options[..] ==
      if Wanted(mask, 1) == [] then old(packet.options[..])
      else Appended(old(packet.options[..]), DHCP_PARAM_REQ, Wanted(mask, 1))
  {
    hide Wanted, Bit, Parse;
    var end := packet.EndOption();
    ghost var f, all := packet.options[..], Wanted(mask, 1);
    var len: nat, i := 0, 1;
    assert all[0..] == all;
    while i < 255
      invariant 1 <= i <= 255 && len <= |all| && all[len..] == Wanted(mask, i)
      invariant forall k | 0 <= k < len :: packet.options[end + 2 + k] == all[k]
      invariant forall k | 0 <= k < OPTIONS_SIZE && !(end + 2 <= k < end + 2 + len) :: packet.options[k] == f[k]
    {
      WantedStep(mask, i, all, len);
      if Bit(mask, i) {
        packet.options[end + 2 + len] := i;
        len := len + 1;
      }
      i := i + 1;
    }
    assert len == |all| by { WantedDone(mask); }
    if len != 0 {
      packet.options[end] := DHCP_PARAM_REQ;
      packet.options[end + 1] := len;
      packet.options[end + 2 + len] := DHCP_END;
      assert packet.options[..] == Appended(f, DHCP_PARAM_REQ, all);
    } else {
      assert packet.options[..] == f;
    }
  }

  lemma WantedDone(mask: seq<byte>)
    requires |mask| == 32
    ensures Wanted(mask, 255) == []
  {
  }

  /** Adds an option of the configuration, if it is set. */
  method AddIfSet(packet: DhcpPacket, o: Option<seq<byte>>)
    requires packet.Valid() && Terminated(packet.options[..]) && (o.Some? ==> GoodOption(o.value))
    modifies packet.options
    ensures Terminated(packet.options[..])
    ensures packet.options[..] == AddAll(old(packet.options[..]), Listed(o))
  {
    AddAllAddsAccepted(packet.options[..], Listed(o));
    if o.Some? {
      packet.AddBinaryOption(o.value);
      assert [o.value][1..] == [];
    }
  }

  /** The loop over the options given with -x. */
  method AddExtra(packet: DhcpPacket, extra: seq<seq<byte>>)
    requires packet.Valid() && Terminated(packet.options[..]) && GoodOptions(extra)
    modifies packet.options
    ensures Terminated(packet.options[..])
    ensures packet.options[..] == AddAll(old(packet.options[..]), extra)
  {
    var k := 0;
    assert extra[0..] == extra;
    while k < |extra|
      invariant 0 <= k <= |extra| && Terminated(packet.options[..])
      invariant GoodOptions(extra[k..])
      invariant AddAll(packet.options[..], extra[k..]) == AddAll(old(packet.options[..]), extra)
    {
      assert extra[k] in extra && extra[k..][1..] == extra[k + 1..] && extra[k..][0] == extra[k];
      AddAllAddsAccepted(packet.options[..], [extra[k]]);
      packet.AddBinaryOption(extra[k]);
      k := k + 1;
    }
  }

  lemma AddOptional(f: seq<byte>, cfg: ClientOptions)
    requires GoodConfig(cfg)
    ensures AddAll(f, Optional(cfg))
         == AddAll(AddAll(AddAll(AddAll(f, Listed(cfg.vendorclass)), Listed(cfg.hostname)), Listed(cfg.fqdn)), cfg.extra)
  {
    var a, b, c := Listed(cfg.vendorclass), Listed(cfg.hostname), Listed(cfg.fqdn);
    hide AddAll;
    AddAllConcat(f, a + b + c, cfg.extra);
    AddAllConcat(f, a + b, c);
    AddAllConcat(f, a, b);
  }

  method AddMaxSize(packet: DhcpPacket)
    requires packet.Valid() && Terminated(packet.options[..]) && EndOf(packet.options[..]) + 5 < OPTIONS_SIZE
    modifies packet.options
    ensures var f := old(packet.options[..]);
      && Terminated(packet.options[..]) && EndOf(packet.options[..]) == EndOf(f) + 4
      && Entries(packet.options[..]) == Entries(f) + [Entry(EndOf(f), DHCP_MAX_SIZE, [2, 64])]
  {
    hide Parse, SimpleLength, Appended;
    ghost var f := packet.options[..];
    LengthOf(DHCP_MAX_SIZE, 2);
    assert (LittleEndian(MAX_SIZE_NET) + [])[..2] == [2, 64];
    packet.AddSimpleOption(DHCP_MAX_SIZE, MAX_SIZE_NET, []);
    assert DataOf(OptionBytes(DHCP_MAX_SIZE, [2, 64])) == [2, 64];
    AppendParses(f, DHCP_MAX_SIZE, [2, 64]);
  }

  method AddParams(packet: DhcpPacket, mask: seq<byte>)
    requires packet.Valid() && Terminated(packet.options[..]) && |mask| == 32
    requires Room(packet.options[..], Wanted(mask, 1))
    modifies packet.options
    ensures var f := old(packet.options[..]);
      && Terminated(packet.options[..]) && EndOf(packet.options[..]) == AfterParams(EndOf(f), mask)
      && Entries(packet.options[..]) == Entries(f) + ParamRequest(EndOf(f), mask)
  {
    hide Wanted, Parse, Appended;
    ghost var f := packet.options[..];
    AddParamRequest(packet, mask);
    if Wanted(mask, 1) != [] {
      AppendParses(f, DHCP_PARAM_REQ, Wanted(mask, 1));
    }
  }

  /** The options that the configuration may hold, each if it is set and fits. */
  method AddConfigured(packet: DhcpPacket, cfg: ClientOptions)
    requires packet.Valid() && Terminated(packet.options[..]) && GoodConfig(cfg)
    modifies packet.options
    ensures var f := old(packet.options[..]);
      && Terminated(packet.options[..])
      && Entries(packet.options[..]) == Entries(f) + Accepted(OPTIONS_SIZE, EndOf(f), Optional(cfg))
  {
    hide Parse, AddAll, Accepted;
    ghost var f := packet.options[..];
    AddIfSet(packet, cfg.vendorclass);
    AddIfSet(packet, cfg.hostname);
    AddIfSet(packet, cfg.fqdn);
    AddExtra(packet, cfg.extra);
    AddOptional(f, cfg);
    AddAllAddsAccepted(f, Optional(cfg));
  }

  /** add_client_options. */
  method AddClientOptions(packet: DhcpPacket, cfg: ClientOptions)
    requires packet.Valid() && Terminated(packet.options[..]) && GoodConfig(cfg)
    requires EndOf(packet.options[..]) + 4 + 2 + |Wanted(cfg.mask, 1)| < OPTIONS_SIZE
    modifies packet.options
    ensures var f := old(packet.options[..]);
      && Terminated(packet.options[..])
      && Entries(packet.options[..]) == Entries(f) + ClientEntries(EndOf(f), cfg)
  {
    hide Wanted, Parse, Entries, EndOf, Terminated, ParamRequest, AfterParams, Accepted, Optional;
    AddMaxSize(packet);
    AddParams(packet, cfg.mask);
    AddConfigured(packet, cfg);
  }

  lemma LengthOf(code: byte, n: byte)
    requires (code == DHCP_MAX_SIZE && n == 2) || (code == DHCP_MESSAGE_TYPE && n == 1)
          || ((code == DHCP_REQUESTED_IP || code == DHCP_SERVER_ID) && n == 4)
    ensures SimpleLength(code, SIMPLE_LENGTHS) == Some(n)
  {
    hide SimpleLength;
    var k := if code == DHCP_MAX_SIZE then 30 else if code == DHCP_MESSAGE_TYPE then 29
             else if code == DHCP_REQUESTED_IP then 28 else 19;
    LengthAt(code, SIMPLE_LENGTHS, k);
  }

  lemma {:induction false} LengthAt(code: byte, table: seq<(byte, byte)>, k: nat)
    requires k < |table| && table[k].0 == code && forall j | 0 <= j < k :: table[j].0 != code
    ensures SimpleLength(code, table) == Some(table[k].1)
  {
    if k > 0 {
      LengthAt(code, table[1..], k - 1);
    }
  }

  // ----- the requests -----

  /** What init_packet puts at the start: the message type and the client id. */
  function HeaderEntries(kind: byte, cfg: ClientOptions): seq<Entry>
    requires GoodConfig(cfg)
  {
    [Entry(0, DHCP_MESSAGE_TYPE, [kind])]
    + if cfg.clientId.Some? then [Entry(3, DHCP_CLIENT_ID, DataOf(cfg.clientId.value))] else []
  }

  function HeaderEnd(cfg: ClientOptions): nat {
    if cfg.clientId.Some? then 12 else 3
  }

  method InitPacket(kind: byte, cfg: ClientOptions) returns (packet: DhcpPacket)
    requires GoodConfig(cfg)
    ensures packet.Valid() && fresh(packet.options)
    ensures Terminated(packet.options[..])
    ensures Entries(packet.options[..]) == HeaderEntries(kind, cfg) && EndOf(packet.options[..]) == HeaderEnd(cfg)
  {
    hide SimpleLength, Appended, Parse;
    packet := new DhcpPacket();
    ghost var f := packet.options[..];
    LengthOf(DHCP_MESSAGE_TYPE, 1);
    assert (LittleEndian(kind) + [])[..1] == [kind];
    assert DataOf(OptionBytes(DHCP_MESSAGE_TYPE, [kind])) == [kind];
    AppendParses(f, DHCP_MESSAGE_TYPE, [kind]);
    packet.AddSimpleOption(DHCP_MESSAGE_TYPE, kind, []);
    if cfg.clientId.Some? {
      AppendParses(packet.options[..], DHCP_CLIENT_ID, DataOf(cfg.clientId.value));
      packet.AddBinaryOption(cfg.clientId.value);
    }
  }

  /** An address or server id behind the options so far, which end early enough. */
  method AddAddress(packet: DhcpPacket, code: byte, ip: nat)
    requires packet.Valid() && Terminated(packet.options[..]) && EndOf(packet.options[..]) < 100
    requires code == DHCP_REQUESTED_IP || code == DHCP_SERVER_ID
    modifies packet.options
    ensures var f := old(packet.options[..]);
      && Terminated(packet.options[..]) && EndOf(packet.options[..]) == EndOf(f) + 6
      && Entries(packet.options[..]) == Entries(f) + [Entry(EndOf(f), code, LittleEndian(ip))]
  {
    hide SimpleLength, Appended, Parse;
    LengthOf(code, 4);
    assert (LittleEndian(ip) + [])[..4] == LittleEndian(ip);
    assert DataOf(OptionBytes(code, LittleEndian(ip))) == LittleEndian(ip);
    AppendParses(packet.options[..], code, LittleEndian(ip));
    packet.AddSimpleOption(code, ip, []);
  }

  function DiscoverEntries(cfg: ClientOptions, requested: nat): seq<Entry>
    requires GoodConfig(cfg)
  {
    var end := HeaderEnd(cfg);
    if requested == 0 then HeaderEntries(DHCPDISCOVER, cfg) + ClientEntries(end, cfg)
    else HeaderEntries(DHCPDISCOVER, cfg) + [Entry(end, DHCP_REQUESTED_IP, LittleEndian(requested))]
         + ClientEntries(end + 6, cfg)
  }

  function SelectEntries(cfg: ClientOptions, server: nat, requested: nat): seq<Entry>
    requires GoodConfig(cfg)
  {
    var end := HeaderEnd(cfg);
    HeaderEntries(DHCPREQUEST, cfg)
    + [Entry(end, DHCP_REQUESTED_IP, LittleEndian(requested)), Entry(end + 6, DHCP_SERVER_ID, LittleEndian(server))]
    + ClientEntries(end + 12, cfg)
  }

  function RenewEntries(cfg: ClientOptions): seq<Entry>
    requires GoodConfig(cfg)
  {
    HeaderEntries(DHCPREQUEST, cfg) + ClientEntries(HeaderEnd(cfg), cfg)
  }

  /** The options of send_discover.  No room is asked for: the unchecked parameter list
      always fits behind what comes before it. */
  method DiscoverOptions(cfg: ClientOptions, requested: nat) returns (packet: DhcpPacket)
    requires GoodConfig(cfg)
    ensures packet.Valid() && Terminated(packet.options[..])
    ensures Entries(packet.options[..]) == DiscoverEntries(cfg, requested)
  {
    packet := InitPacket(DHCPDISCOVER, cfg);
    if requested != 0 {
      AddAddress(packet, DHCP_REQUESTED_IP, requested);
    }
    AddClientOptions(packet, cfg);
  }

  /** The options of send_select. */
  method SelectOptions(cfg: ClientOptions, server: nat, requested: nat) returns (packet: DhcpPacket)
    requires GoodConfig(cfg)
    ensures packet.Valid() && Terminated(packet.options[..])
    ensures Entries(packet.options[..]) == SelectEntries(cfg, server, requested)
  {
    hide ClientEntries, HeaderEntries, LittleEndian, Entries, Terminated;
    packet := InitPacket(DHCPREQUEST, cfg);
    ghost var head := Entries(packet.options[..]);
    AddAddress(packet, DHCP_REQUESTED_IP, requested);
    AddAddress(packet, DHCP_SERVER_ID, server);
    AddClientOptions(packet, cfg);
    ghost var a, b := Entry(HeaderEnd(cfg), DHCP_REQUESTED_IP, LittleEndian(requested)),
                      Entry(HeaderEnd(cfg) + 6, DHCP_SERVER_ID, LittleEndian(server));
    assert head + [a] + [b] == head + [a, b];
  }

  /** The options of send_renew. */
  method RenewOptions(cfg: ClientOptions) returns (packet: DhcpPacket)
    requires GoodConfig(cfg)
    ensures packet.Valid() && Terminated(packet.options[..])
    ensures Entries(packet.options[..]) == RenewEntries(cfg)
  {
    packet := InitPacket(DHCPREQUEST, cfg);
    AddClientOptions(packet, cfg);
  }
}
