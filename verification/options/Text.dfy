/** xmalloc_optname_optval: an option as the text "name=value", in a buffer whose size is
    estimated from the option's length. */
module OptionText {
  import opened Wrappers
  import opened OptionSpec
  import opened StaticRoutes
  import opened OptionChecks
  import opened DivMod

  /** The option types whose text is modelled; the others need functions that are not
      part of this model. */
  datatype OptionType =
    | TypeIp | TypeIpPair | TypeU8 | TypeU16 | TypeU32 | TypeS32
    | TypeString | TypeHostString | TypeStaticRoutes

  predicate IsString(t: OptionType) {
    t == TypeString || t == TypeHostString
  }

  /** Options that are lists of elements of one size. */
  predicate IsList(t: OptionType) {
    t != TypeStaticRoutes && !IsString(t)
  }

  /** dhcp_option_lengths. */
  function LengthOf(t: OptionType): (n: nat)
    ensures n > 0
  {
    match t
    case TypeIp => 4
    case TypeIpPair => 8
    case TypeU8 => 1
    case TypeU16 => 2
    case TypeU32 => 4
    case TypeS32 => 4
    case TypeString => 1
    case TypeHostString => 1
    case TypeStaticRoutes => 5
  }

  /** len_of_option_as_string: the widest text of an element, a separator and a NUL. */
  function WidthOf(t: OptionType): nat {
    match t
    case TypeIp => |"255.255.255.255 "| + 1
    case TypeIpPair => 2 * (|"255.255.255.255 "| + 1)
    case TypeU8 => |"255 "| + 1
    case TypeU16 => |"65535 "| + 1
    case TypeU32 => |"4294967295 "| + 1
    case TypeS32 => |"-2147483684 "| + 1
    case TypeString => 1
    case TypeHostString => 1
    case TypeStaticRoutes => |"255.255.255.255/32 255.255.255.255 "| + 1
  }

  // ----- numbers and addresses -----

  function Digit(d: nat): char
    requires d < 10
  {
    '0' + d as char
  }

  /** "%u" */
  function Decimal(n: nat): string {
    if n < 10 then [Digit(n)] else Decimal(n / 10) + [Digit(n % 10)]
  }

  function Pow10(k: nat): nat {
    if k == 0 then 1 else 10 * Pow10(k - 1)
  }

  lemma {:induction false} DecimalLength(n: nat, k: nat)
    requires k > 0 && n < Pow10(k)
    ensures |Decimal(n)| <= k
    decreases k
  {
    if n >= 10 {
      assert k > 1;
      DecimalLength(n / 10, k - 1);
    }
  }

  function Net16(b: seq<byte>): nat
    requires |b| >= 2
  {
    256 * (b[0] as int) + b[1] as int
  }

  function Net32(b: seq<byte>): (n: nat)
    requires |b| >= 4
    ensures n < 0x1_0000_0000
  {
    0x100_0000 * (b[0] as int) + 0x1_0000 * (b[1] as int) + 256 * (b[2] as int) + b[3] as int
  }

  /** "%ld" of a 32-bit long. */
  function Signed32(n: nat): string {
    if n < 0x8000_0000 then Decimal(n) else if n < 0x1_0000_0000 then "-" + Decimal(0x1_0000_0000 - n) else []
  }

  /** sprint_nip without its prefix. */
  function IpText(ip: seq<byte>): string
    requires |ip| == 4
  {
    Decimal(ip[0]) + "." + Decimal(ip[1]) + "." + Decimal(ip[2]) + "." + Decimal(ip[3])
  }

  lemma ByteLength(b: byte)
    ensures |Decimal(b)| <= 3
  {
    assert Pow10(3) == 1000;
    DecimalLength(b, 3);
  }

  lemma IpLength(ip: seq<byte>)
    requires |ip| == 4
    ensures |IpText(ip)| <= 15
  {
    ByteLength(ip[0]);
    ByteLength(ip[1]);
    ByteLength(ip[2]);
    ByteLength(ip[3]);
    hide Decimal;
  }

  // ----- the text of an option -----

  /** One element of a list option. */
  function ElementText(t: OptionType, b: seq<byte>): string
    requires IsList(t) && |b| == LengthOf(t)
  {
    match t
    case TypeIp => IpText(b)
    case TypeIpPair => IpText(b[..4]) + "/" + IpText(b[4..])
    case TypeU8 => Decimal(b[0])
    case TypeU16 => Decimal(Net16(b))
    case TypeU32 => Decimal(Net32(b))
    case TypeS32 => Signed32(Net32(b))
  }

  lemma ElementLength(t: OptionType, b: seq<byte>)
    requires IsList(t) && |b| == LengthOf(t)
    ensures |ElementText(t, b)| + 2 <= WidthOf(t)
  {
    match t
    case TypeIp => IpLength(b);
    case TypeIpPair => IpLength(b[..4]); IpLength(b[4..]);
    case TypeU8 => ByteLength(b[0]);
    case TypeU16 =>
      assert Pow10(5) == 100000 by { assert Pow10(3) == 1000; }
      DecimalLength(Net16(b), 5);
    case TypeU32 =>
      TenDigits();
      DecimalLength(Net32(b), 10);
    case TypeS32 =>
      TenDigits();
      var n := Net32(b);
      DecimalLength(if n < 0x8000_0000 then n else 0x1_0000_0000 - n, 10);
  }

  lemma TenDigits()
    ensures Pow10(10) == 10_000_000_000
  {
    assert Pow10(4) == 10_000;
    assert Pow10(7) == 10_000_000;
  }

  /** The whole elements of `b`, separated by blanks. */
  function ListText(t: OptionType, b: seq<byte>): string
    requires IsList(t)
    decreases |b|
  {
    var n := LengthOf(t);
    if |b| < n then []
    else if |b| < 2 * n then ElementText(t, b[..n])
    else ElementText(t, b[..n]) + " " + ListText(t, b[n..])
  }

  function RouteText(r: Route): string
    requires Canonical(r)
  {
    IpText(r.dest) + "/" + Decimal(r.mask) + " " + IpText(r.router)
  }

  function RoutesText(rs: seq<Route>): string
    requires forall r | r in rs :: Canonical(r)
  {
    if rs == [] then []
    else
      assert rs[0] in rs;
      if |rs| == 1 then RouteText(rs[0]) else RouteText(rs[0]) + " " + RoutesText(rs[1..])
  }

  function Chars(b: seq<byte>): (s: string)
    ensures |s| == |b| && forall k | 0 <= k < |b| :: s[k] == b[k] as char
  {
    seq(|b|, k requires 0 <= k < |b| => b[k] as char)
  }

  /** The bytes before the first NUL. */
  function CString(b: seq<byte>): (r: seq<byte>)
    ensures forall ch | ch in r :: ch != 0
  {
    if b == [] || b[0] == 0 then [] else [b[0]] + CString(b[1..])
  }

  /** A string as it is; in place of a host name that is none, as much of "bad" as it has
      room for. */
  function StringText(t: OptionType, b: seq<byte>): (text: string)
    ensures |text| <= |b|
  {
    if t == TypeString || GoodName(CString(b)) then Chars(b)
    else if |b| < 3 then "bad"[..|b|]
    else "bad"
  }

  function ValueText(t: OptionType, b: seq<byte>): string {
    if t == TypeStaticRoutes then RoutesText(Decode(b))
    else if IsString(t) then StringText(t, b)
    else ListText(t, b)
  }

  lemma RouteLength(r: Route)
    requires Canonical(r)
    ensures |RouteText(r)| <= 34
  {
    IpLength(r.dest);
    IpLength(r.router);
    assert Pow10(2) == 100;
    DecimalLength(r.mask, 2);
    hide Decimal, IpText;
  }

  /** The estimate of the text's length, from the option's length alone. */
  function UpperLength(t: OptionType, len: nat): nat {
    WidthOf(t) * ((len + LengthOf(t) - 1) / LengthOf(t))
  }

  lemma OneElementMore(w: nat, n: nat, len: nat, element: nat, rest: nat)
    requires 0 < n <= len && element + 1 <= w && rest <= w * ((len - n) / n)
    ensures element + 1 + rest <= w * (len / n)
  {
    AddMultiple(len - n, n);
    var k := (len - n) / n;
    assert w * (k + 1) == w * k + w;
  }

  lemma {:induction false} ListLength(t: OptionType, b: seq<byte>)
    requires IsList(t)
    ensures |ListText(t, b)| <= WidthOf(t) * (|b| / LengthOf(t))
    decreases |b|
  {
    hide ElementText, WidthOf, LengthOf;
    var n, w := LengthOf(t), WidthOf(t);
    Parts(|b|, n);
    Monotone(w, 0, |b| / n);
    if |b| >= n {
      var element := |ElementText(t, b[..n])|;
      assert element + 1 <= w by { ElementLength(t, b[..n]); }
      Parts(|b| - n, n);
      Monotone(w, 0, (|b| - n) / n);
      OneElementMore(w, n, |b|, element, 0);
      if |b| >= 2 * n {
        ListLength(t, b[n..]);
        OneElementMore(w, n, |b|, element, |ListText(t, b[n..])|);
      }
    }
  }

  lemma {:induction false} RoutesLength(rs: seq<Route>)
    requires forall r | r in rs :: Canonical(r)
    ensures |RoutesText(rs)| <= 36 * |rs|
  {
    if rs != [] {
      assert rs[0] in rs;
      RouteLength(rs[0]);
      RoutesLength(rs[1..]);
      hide RouteText;
    }
  }

  lemma RoundedUp(w: nat, len: nat, n: nat)
    requires n > 0
    ensures w * (len / n) <= w * ((len + n - 1) / n)
  {
    DivMonotone(len, len + n - 1, n);
    Monotone(w, len / n, (len + n - 1) / n);
  }

  lemma RoutesFit(b: seq<byte>)
    ensures |RoutesText(Decode(b))| <= UpperLength(TypeStaticRoutes, |b|)
  {
    hide RoutesText, Decode;
    var n := |Decode(b)|;
    assert n <= |b| / 5 && |RoutesText(Decode(b))| <= 36 * n by { RoutesLength(Decode(b)); }
    assert 36 * n <= 36 * ((|b| + 4) / 5) by { hide *; }
    assert UpperLength(TypeStaticRoutes, |b|) == 36 * ((|b| + 4) / 5);
  }

  /** The estimate is large enough for every option. */
  lemma TextFits(t: OptionType, b: seq<byte>)
    ensures |ValueText(t, b)| <= UpperLength(t, |b|)
  {
    if t == TypeStaticRoutes {
      RoutesFit(b);
    } else if IsString(t) {
      assert UpperLength(t, |b|) == |b|;
    } else {
      ListLength(t, b);
      RoundedUp(WidthOf(t), |b|, LengthOf(t));
      hide LengthOf, WidthOf, ListText;
    }
  }

  // ----- writing it -----

  /** sprintf at `dest`: the text and its NUL must lie inside the buffer. */
  method Print(buffer: array<char>, dest: nat, text: string) returns (dest': nat)
    requires dest + |text| < buffer.Length
    modifies buffer
    ensures dest' == dest + |text|
    ensures buffer[..dest'] == old(buffer[..dest]) + text && buffer[dest'] == '\0'
  {
    forall k | 0 <= k < |text| {
      buffer[dest + k] := text[k];
    }
    dest' := dest + |text|;
    buffer[dest'] := '\0';
  }

  /** The buffer holds `text` and its NUL. */
  ghost predicate Reads(buffer: array<char>, dest: nat, text: string)
    reads buffer
  {
    dest < buffer.Length && buffer[..dest] == text && buffer[dest] == '\0'
  }

  /** The loop over the elements of a list option. */
  method PrintList(buffer: array<char>, dest0: nat, t: OptionType, option: seq<byte>, ghost prefix: string)
    returns (dest: nat)
    requires IsList(t) && Reads(buffer, dest0, prefix)
    requires dest0 + |ListText(t, option)| < buffer.Length
    modifies buffer
    ensures Reads(buffer, dest, prefix + ListText(t, option))
  {
    hide ElementText;
    dest := dest0;
    var optlen, i := LengthOf(t), 0;
    ghost var done, all := prefix, prefix + ListText(t, option);
    assert option[0..] == option;
    while |option| - i >= optlen
      invariant 0 <= i <= |option|
      invariant Reads(buffer, dest, done) && done + ListText(t, option[i..]) == all
      decreases |option| - i
    {
      var text := ElementText(t, option[i..i + optlen]);
      ghost var rest := ListText(t, option[i + optlen..]);
      ListStep(t, option, i);
      assert |all| == |done| + |ListText(t, option[i..])|;
      dest := Print(buffer, dest, text);
      ghost var was := done;
      done := done + text;
      i := i + optlen;
      if |option| - i < optlen {
        assert done == all;
        return;
      }
      dest := Print(buffer, dest, " ");
      assert was + (text + " " + rest) == (was + text + " ") + rest;
      done := done + " ";
    }
  }

  lemma ListStep(t: OptionType, b: seq<byte>, i: nat)
    requires IsList(t) && i + LengthOf(t) <= |b|
    ensures var n := LengthOf(t);
      ListText(t, b[i..]) == ElementText(t, b[i..i + n])
        + if |b| - i < 2 * n then [] else " " + ListText(t, b[i + n..])
  {
    hide ElementText, LengthOf;
    var n := LengthOf(t);
    assert b[i..][..n] == b[i..i + n] && b[i..][n..] == b[i + n..];
  }

  /** The case of a string; safe_strncpy is strncpy here, which fills up with NULs. */
  method PrintString(buffer: array<char>, dest0: nat, t: OptionType, option: seq<byte>, ghost prefix: string)
    returns (dest: nat)
    requires IsString(t) && Reads(buffer, dest0, prefix)
    requires dest0 + |option| < buffer.Length
    modifies buffer
    ensures Reads(buffer, dest, prefix + StringText(t, option))
  {
    hide CString, GoodName;
    var len := |option|;
    if len < 1 {
      return dest0;
    }
    dest := dest0 + len;
    forall k | 0 <= k < len {
      buffer[dest0 + k] := option[k] as char;
    }
    buffer[dest] := '\0';
    if t == TypeHostString {
      var good := GoodHostname(CString(option));
      if !good {
        forall k | 0 <= k < len {
          buffer[dest0 + k] := if k < 3 then "bad"[k] else '\0';
        }
        dest := dest0 + if len < 3 then len else 3;
      }
    }
    assert buffer[..dest0] == prefix;
    assert buffer[..dest] == prefix + StringText(t, option);
  }

  /** The part of the loop over static routes that reads one.  It reads only bytes of the
      option, also when the route turns out to be cut off. */
  method ReadRoute(option: seq<byte>, start: nat) returns (route: Option<Route>, i: nat)
    requires start + 5 <= |option|
    ensures route.Some? <==> StartsWithRoute(option[start..])
    ensures route.Some? ==> route.value == RouteAt(option[start..])
    ensures route.Some? ==> i == start + 5 + Significant(option[start]) <= |option|
  {
    i := start;
    var len := |option| - i;
    ghost var left := option[start..];
    var mask := option[i];
    i := i + 1;
    if mask > 32 {
      return None, i;
    }
    len := len - 1;
    var nip: seq<byte>, bytes := [], Significant(mask);
    while bytes > 0
      invariant i == start + 1 + |nip| && len == |option| - i >= bytes
      invariant |nip| + bytes == Significant(mask)
      invariant nip == left[1..1 + |nip|]
      decreases bytes
    {
      nip := nip + [option[i]];
      i := i + 1;
      len := len - 1;
      bytes := bytes - 1;
    }
    if len < 4 {
      return None, i;
    }
    route := Some(Route(mask, nip + seq(4 - |nip|, _ => 0), option[i..i + 4]));
    assert option[i..i + 4] == left[1 + |nip|..5 + |nip|];
    i := i + 4;
  }

  /** The loop over static routes. */
  method PrintRoutes(buffer: array<char>, dest0: nat, option: seq<byte>, ghost prefix: string) returns (dest: nat)
    requires Reads(buffer, dest0, prefix)
    requires dest0 + |RoutesText(Decode(option))| < buffer.Length
    modifies buffer
    ensures Reads(buffer, dest, prefix + RoutesText(Decode(option)))
  {
    hide StartsWithRoute, RouteAt, Significant, RouteText;
    dest := dest0;
    var pfx, i := "", 0;
    ghost var done, all := prefix, prefix + RoutesText(Decode(option));
    assert option[0..] == option;
    TailStart(Decode(option));
    while |option| - i >= 1 + 4
      invariant 0 <= i <= |option|
      invariant Reads(buffer, dest, done) && done + Tail(pfx, Decode(option[i..])) == all
      decreases |option| - i
    {
      DecodeStep(option, i);
      var route, next := ReadRoute(option, i);
      if route == None {
        break;
      }
      var r := route.value;
      ghost var rest := Decode(option[next..]);
      TailStep(pfx, r, rest);
      Regroup(done, pfx + RouteText(r), Tail(" ", rest));
      dest := PrintRoute(buffer, dest, pfx, r);
      done := done + (pfx + RouteText(r));
      pfx := " ";
      i := next;
    }
    DecodeStop(option, i);
    assert done == all;
  }

  lemma SliceAgain(b: seq<byte>, i: nat, n: nat)
    requires i < |b| && i + n <= |b|
    ensures b[i..][0] == b[i] && b[i..][n..] == b[i + n..]
  {
  }

  lemma DecodeStep(option: seq<byte>, i: nat)
    requires i < |option|
    ensures StartsWithRoute(option[i..]) ==>
      i + 5 + Significant(option[i]) <= |option| &&
      Decode(option[i..]) == [RouteAt(option[i..])] + Decode(option[i + 5 + Significant(option[i])..])
    ensures !StartsWithRoute(option[i..]) ==> Decode(option[i..]) == []
  {
    var b := option[i..];
    if StartsWithRoute(b) {
      var n := 5 + Significant(b[0]);
      assert n <= |b| && Decode(b) == [RouteAt(b)] + Decode(b[n..]);
      hide *;
      SliceAgain(option, i, n);
    }
  }

  lemma DecodeStop(option: seq<byte>, i: nat)
    requires i <= |option|
    ensures |option| - i < 5 ==> Decode(option[i..]) == []
  {
  }

  /** What is still to be printed: nothing, or the separator and the routes left. */
  function Tail(pfx: string, rs: seq<Route>): string
    requires forall r | r in rs :: Canonical(r)
  {
    if rs == [] then [] else pfx + RoutesText(rs)
  }

  lemma TailStart(rs: seq<Route>)
    requires forall r | r in rs :: Canonical(r)
    ensures Tail("", rs) == RoutesText(rs)
  {
  }

  lemma TailStep(pfx: string, r: Route, rest: seq<Route>)
    requires Canonical(r) && forall x | x in rest :: Canonical(x)
    ensures forall x | x in [r] + rest :: Canonical(x)
    ensures Tail(pfx, [r] + rest) == (pfx + RouteText(r)) + Tail(" ", rest)
  {
    assert ([r] + rest)[1..] == rest;
    hide RouteText, Canonical;
    if rest != [] {
      Regroup(RouteText(r), " ", RoutesText(rest));
      Regroup(pfx, RouteText(r), " " + RoutesText(rest));
      Regroup(pfx + RouteText(r), " ", RoutesText(rest));
    }
  }

  method PrintRoute(buffer: array<char>, dest0: nat, pfx: string, r: Route) returns (dest: nat)
    requires Canonical(r) && dest0 + |pfx + RouteText(r)| < buffer.Length
    modifies buffer
    ensures dest == dest0 + |pfx + RouteText(r)|
    ensures buffer[..dest] == old(buffer[..dest0]) + (pfx + RouteText(r)) && buffer[dest] == '\0'
  {
    hide IpText, Decimal;
    dest := Print(buffer, dest0, pfx + IpText(r.dest));
    dest := Print(buffer, dest, "/" + Decimal(r.mask) + " ");
    dest := Print(buffer, dest, IpText(r.router));
    assert (pfx + IpText(r.dest)) + ("/" + Decimal(r.mask) + " ") + IpText(r.router) == pfx + RouteText(r);
  }

  /** xmalloc_optname_optval: the buffer is large enough for every option. */
  method OptnameOptval(t: OptionType, option: seq<byte>, name: string) returns (ret: array<char>, end: nat)
    ensures Reads(ret, end, name + "=" + ValueText(t, option))
  {
    var upperLength := UpperLength(t, |option|);
    ret := new char[upperLength + |name| + 2](_ => 'x');
    TextFits(t, option);
    hide UpperLength;
    var dest := Print(ret, 0, name + "=");
    if t == TypeStaticRoutes {
      end := PrintRoutes(ret, dest, option, name + "=");
    } else if IsString(t) {
      end := PrintString(ret, dest, t, option, name + "=");
    } else {
      end := PrintList(ret, dest, t, option, name + "=");
    }
  }
}
