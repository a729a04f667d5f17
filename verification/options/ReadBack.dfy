/** Reading the text of an option back: the numbers, addresses and routes that a script
    gets by splitting it are those of the option's bytes. */
module OptionReadBack {
  import opened Wrappers
  import opened OptionSpec
  import opened StaticRoutes
  import opened OptionChecks
  import opened OptionText

  // ----- numbers -----

  predicate IsDigit(c: char) {
    '0' <= c <= '9'
  }

  function Number(s: string): int {
    if s == [] then 0 else 10 * Number(s[..|s| - 1]) + (s[|s| - 1] as int - '0' as int)
  }

  /** `s` is the decimal numeral of `n`. */
  predicate Says(s: string, n: int) {
    && s != [] && (forall k | 0 <= k < |s| :: IsDigit(s[k])) && (|s| > 1 ==> s[0] != '0')
    && Number(s) == n
  }

  lemma {:induction false} DecimalSays(n: nat)
    ensures Says(Decimal(n), n)
  {
    if n < 10 {
      assert Number([]) == 0;
      assert [Digit(n)][..0] == [];
    } else {
      DecimalSays(n / 10);
      var s, d := Decimal(n / 10), Digit(n % 10);
      assert (s + [d])[..|s|] == s;
      assert s == ['0'] ==> Number(s) == 0 by {
        assert ['0'][..0] == [] && Number([]) == 0;
      }
    }
  }

  /** No digit is a separator. */
  lemma NoSeparator(s: string, n: int)
    requires Says(s, n)
    ensures '.' !in s && '/' !in s && ' ' !in s
  {
  }

  // ----- addresses -----

  /** The four numbers between dots are the bytes. */
  predicate SaysIp(s: string, ip: seq<byte>) {
    var parts := Split(s, '.');
    |ip| == 4 && |parts| == 4
    && Says(parts[0], ip[0]) && Says(parts[1], ip[1]) && Says(parts[2], ip[2]) && Says(parts[3], ip[3])
  }

  lemma IpSays(ip: seq<byte>)
    requires |ip| == 4
    ensures SaysIp(IpText(ip), ip) && '/' !in IpText(ip) && ' ' !in IpText(ip)
  {
    var a, b, c, d := Decimal(ip[0]), Decimal(ip[1]), Decimal(ip[2]), Decimal(ip[3]);
    DecimalSays(ip[0]);
    DecimalSays(ip[1]);
    DecimalSays(ip[2]);
    DecimalSays(ip[3]);
    NoSeparator(a, ip[0]);
    NoSeparator(b, ip[1]);
    NoSeparator(c, ip[2]);
    NoSeparator(d, ip[3]);
    hide Says, Decimal;
    SplitFour(a, b, c, d, '.');
  }

  lemma SplitNext(a: string, b: string, sep: char)
    requires sep !in a
    ensures Split(a + ([sep] + b), sep) == [a] + Split(b, sep)
  {
    SplitFirst(a, [sep] + b, sep);
    assert ([sep] + b)[1..] == b;
  }

  lemma SplitTwo(a: string, b: string, sep: char)
    requires sep !in a
    ensures Split(a + [sep] + b, sep) == [a] + Split(b, sep)
  {
    SplitNext(a, b, sep);
    Regroup(a, [sep], b);
  }

  lemma SplitOne(a: string, sep: char)
    requires sep !in a
    ensures Split(a, sep) == [a]
  {
    SplitFirst(a, [], sep);
    assert a + [] == a;
  }

  lemma SplitFour(a: string, b: string, c: string, d: string, sep: char)
    requires sep !in a && sep !in b && sep !in c && sep !in d
    ensures Split(a + [sep] + b + [sep] + c + [sep] + d, sep) == [a, b, c, d]
  {
    hide Split;
    var p := a + [sep];
    var q := p + b + [sep];
    Regroup(q + c, [sep], d);
    Regroup(q, c, [sep] + d);
    Regroup(p + b, [sep], c + ([sep] + d));
    Regroup(p, b, [sep] + (c + ([sep] + d)));
    Regroup(a, [sep], b + ([sep] + (c + ([sep] + d))));
    SplitOne(d, sep);
    SplitNext(c, d, sep);
    SplitNext(b, c + ([sep] + d), sep);
    SplitNext(a, b + ([sep] + (c + ([sep] + d))), sep);
    assert [a] + ([b] + ([c] + [d])) == [a, b, c, d];
  }

  // ----- elements of list options -----

  /** The value of an element, most significant byte first. */
  function BigEndian(b: seq<byte>): nat {
    if b == [] then 0 else 256 * BigEndian(b[..|b| - 1]) + b[|b| - 1] as int
  }

  /** `s` is the text of the element `b`: an address, two addresses with a slash, a number,
      or a number in two's complement. */
  predicate SaysElement(t: OptionType, s: string, b: seq<byte>) {
    match t
    case TypeIp => SaysIp(s, b)
    case TypeIpPair => var p := Split(s, '/'); |p| == 2 && |b| == 8 && SaysIp(p[0], b[..4]) && SaysIp(p[1], b[4..])
    case TypeU8 => |b| == 1 && Says(s, b[0])
    case TypeU16 => |b| == 2 && Says(s, BigEndian(b))
    case TypeU32 => |b| == 4 && Says(s, BigEndian(b))
    case TypeS32 =>
      |b| == 4 && if b[0] < 0x80 then Says(s, BigEndian(b))
                  else s != [] && s[0] == '-' && Says(s[1..], 0x1_0000_0000 - BigEndian(b))
    case _ => false
  }

  lemma BigEndianTwo(b: seq<byte>)
    requires |b| == 2
    ensures BigEndian(b) == Net16(b)
  {
    assert b[..1] == [b[0]] && b[..1][..0] == [] && BigEndian([]) == 0;
    assert BigEndian(b[..1]) == b[0] as int;
  }

  lemma BigEndianFour(b: seq<byte>)
    requires |b| == 4
    ensures BigEndian(b) == Net32(b)
  {
    BigEndianTwo(b[..2]);
    assert b[..3][..2] == b[..2];
    assert BigEndian(b[..3]) == 256 * BigEndian(b[..2]) + b[2] as int;
  }

  lemma ElementSays(t: OptionType, b: seq<byte>)
    requires IsList(t) && |b| == LengthOf(t)
    ensures SaysElement(t, ElementText(t, b), b) && ' ' !in ElementText(t, b)
  {
    match t
    case TypeIp => IpSays(b);
    case TypeIpPair => PairSays(b);
    case TypeU8 =>
      DecimalSays(b[0]);
      NoSeparator(Decimal(b[0]), b[0]);
    case TypeU16 =>
      BigEndianTwo(b);
      DecimalSays(Net16(b));
      NoSeparator(Decimal(Net16(b)), Net16(b));
    case TypeU32 =>
      BigEndianFour(b);
      DecimalSays(Net32(b));
      NoSeparator(Decimal(Net32(b)), Net32(b));
    case TypeS32 => SignedSays(b);
  }

  lemma PairSays(b: seq<byte>)
    requires |b| == 8
    ensures var s := ElementText(TypeIpPair, b); SaysElement(TypeIpPair, s, b) && ' ' !in s
  {
    IpSays(b[..4]);
    IpSays(b[4..]);
    var p, q := IpText(b[..4]), IpText(b[4..]);
    SplitTwo(p, q, '/');
    SplitOne(q, '/');
    hide SaysIp, IpText, Split;
    assert p + "/" + q == p + ['/'] + q;
  }

  lemma SignedSays(b: seq<byte>)
    requires |b| == 4
    ensures var s := ElementText(TypeS32, b); SaysElement(TypeS32, s, b) && ' ' !in s
  {
    BigEndianFour(b);
    var n := Net32(b);
    assert n < 0x8000_0000 <==> b[0] < 0x80;
    var m := if n < 0x8000_0000 then n else 0x1_0000_0000 - n;
    DecimalSays(m);
    NoSeparator(Decimal(m), m);
    hide Says, Decimal, Net32, BigEndian;
    assert n >= 0x8000_0000 ==> ("-" + Decimal(m))[1..] == Decimal(m);
  }

  /** `parts` are the texts of the whole elements of `b`, in order. */
  predicate SaysList(t: OptionType, parts: seq<string>, b: seq<byte>)
    decreases |b|
  {
    var n := LengthOf(t);
    if |b| < n then parts == []
    else parts != [] && SaysElement(t, parts[0], b[..n]) && SaysList(t, parts[1..], b[n..])
  }

  /** The text between blanks gives every element of the option. */
  lemma {:induction false} ListSays(t: OptionType, b: seq<byte>)
    requires IsList(t) && |b| >= LengthOf(t)
    ensures SaysList(t, Split(ListText(t, b), ' '), b)
    decreases |b|
  {
    hide SaysElement, ElementText, LengthOf;
    var n := LengthOf(t);
    var first := ElementText(t, b[..n]);
    ElementSays(t, b[..n]);
    if |b| < 2 * n {
      SplitOne(first, ' ');
      assert SaysList(t, [], b[n..]);
      assert [first][1..] == [];
    } else {
      var rest := ListText(t, b[n..]);
      SplitTwo(first, rest, ' ');
      assert first + " " + rest == first + [' '] + rest;
      ListSays(t, b[n..]);
      assert ([first] + Split(rest, ' '))[1..] == Split(rest, ' ');
    }
  }

  // ----- static routes -----

  /** Two parts a route: the destination with its mask, and the router. */
  predicate SaysRoutes(parts: seq<string>, rs: seq<Route>)
    decreases |rs|
  {
    if rs == [] then parts == []
    else
      && |parts| >= 2
      && (var p := Split(parts[0], '/'); |p| == 2 && SaysIp(p[0], rs[0].dest) && Says(p[1], rs[0].mask))
      && SaysIp(parts[1], rs[0].router) && SaysRoutes(parts[2..], rs[1..])
  }

  lemma NetRouter(net: string, router: string, rest: string)
    requires ' ' !in net && ' ' !in router
    ensures Split(net + " " + router, ' ') == [net, router]
    ensures Split(net + " " + router + " " + rest, ' ') == [net, router] + Split(rest, ' ')
  {
    hide Split;
    SplitOne(router, ' ');
    SplitTwo(net, router, ' ');
    SplitTwo(router, rest, ' ');
    SplitTwo(net, router + [' '] + rest, ' ');
    assert net + " " + router + " " + rest == net + [' '] + (router + [' '] + rest);
    assert net + " " + router == net + [' '] + router;
  }

  lemma NetSays(r: Route)
    requires Canonical(r)
    ensures var net := IpText(r.dest) + "/" + Decimal(r.mask);
      && ' ' !in net && Split(net, '/') == [IpText(r.dest), Decimal(r.mask)]
      && SaysIp(IpText(r.dest), r.dest) && Says(Decimal(r.mask), r.mask)
  {
    IpSays(r.dest);
    DecimalSays(r.mask);
    NoSeparator(Decimal(r.mask), r.mask);
    hide Decimal, IpText, Split, Says, SaysIp;
    SplitTwo(IpText(r.dest), Decimal(r.mask), '/');
    SplitOne(Decimal(r.mask), '/');
  }

  lemma RouteSays(r: Route, rest: string)
    requires Canonical(r)
    ensures var net := IpText(r.dest) + "/" + Decimal(r.mask);
      && Split(RouteText(r), ' ') == [net, IpText(r.router)]
      && Split(RouteText(r) + " " + rest, ' ') == [net, IpText(r.router)] + Split(rest, ' ')
  {
    var net := IpText(r.dest) + "/" + Decimal(r.mask);
    NetSays(r);
    IpSays(r.router);
    hide Decimal, IpText, Split, Says, SaysIp;
    NetRouter(net, IpText(r.router), rest);
    assert RouteText(r) == net + " " + IpText(r.router);
  }

  lemma {:induction false} RoutesSay(rs: seq<Route>)
    requires rs != [] && forall r | r in rs :: Canonical(r)
    ensures SaysRoutes(Split(RoutesText(rs), ' '), rs)
  {
    hide SaysIp, Says, RouteText, IpText, Decimal;
    var r := rs[0];
    assert r in rs;
    var net, router := IpText(r.dest) + "/" + Decimal(r.mask), IpText(r.router);
    var parts := Split(RoutesText(rs), ' ');
    NetSays(r);
    IpSays(r.router);
    if |rs| == 1 {
      RouteSays(r, "");
      assert parts == [net, router] && parts[2..] == [] && rs[1..] == [];
      assert SaysRoutes([], rs[1..]);
    } else {
      var rest := RoutesText(rs[1..]);
      RouteSays(r, rest);
      RoutesSay(rs[1..]);
      assert RoutesText(rs) == RouteText(r) + " " + rest;
      assert parts == [net, router] + Split(rest, ' ');
      assert parts[2..] == Split(rest, ' ');
    }
  }

  // ----- host names -----

  function Bytes(s: string): (b: seq<byte>)
    requires forall k | 0 <= k < |s| :: s[k] as int < 256
    ensures |b| == |s| && forall k | 0 <= k < |s| :: b[k] == s[k] as int
  {
    seq(|s|, k requires 0 <= k < |s| => s[k] as int)
  }

  lemma BytesOfChars(b: seq<byte>)
    ensures Bytes(Chars(b)) == b
  {
  }

  lemma {:induction false} NoNul(b: seq<byte>)
    requires forall k | 0 <= k < |b| :: b[k] != 0
    ensures CString(b) == b
  {
    if b != [] {
      NoNul(b[1..]);
    }
  }

  lemma BadIsGood(b: seq<byte>)
    requires b == ['b' as int] || b == ['b' as int, 'a' as int] || b == ['b' as int, 'a' as int, 'd' as int]
    ensures CString(b) == b && GoodName(b)
  {
    NoNul(b);
    SplitFirst(b, [], DOT);
    assert b + [] == b;
  }

  /** Whatever the option holds, the script gets a good host name, and it gets the option
      itself iff that is one. */
  lemma HostAlwaysGood(b: seq<byte>)
    requires b != []
    ensures var s := StringText(TypeHostString, b);
      && (forall k | 0 <= k < |s| :: s[k] as int < 256) && GoodName(CString(Bytes(s)))
      && (s == Chars(b) <==> GoodName(CString(b)))
  {
    hide GoodName, CString;
    BytesOfChars(b);
    var s := StringText(TypeHostString, b);
    if GoodName(CString(b)) {
      assert Bytes(s) == b;
    } else {
      assert s == "b" || s == "ba" || s == "bad";
      BadIsGood(Bytes(s));
    }
  }

  /** Any other string is passed on byte for byte. */
  lemma StringPassedOn(b: seq<byte>)
    ensures var s := StringText(TypeString, b);
      |s| == |b| && forall k | 0 <= k < |b| :: s[k] as int == b[k]
  {
  }
}
