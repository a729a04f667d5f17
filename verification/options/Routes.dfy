/** Classless static routes: the encoding of RFC 3442 and what the client's decoder makes
    of an option. */
module StaticRoutes {
  import opened OptionSpec

  datatype Route = Route(mask: nat, dest: seq<byte>, router: seq<byte>)

  /** A destination of four bytes, of which those beyond the mask's bytes are zero. */
  predicate Canonical(r: Route) {
    && r.mask <= 32 && |r.dest| == 4 && |r.router| == 4
    && forall k | Significant(r.mask) <= k < 4 :: r.dest[k] == 0
  }

  /** The number of destination bytes that are sent for a mask. */
  function Significant(mask: nat): (n: nat)
    ensures mask <= 32 ==> n <= 4
  {
    (mask + 7) / 8
  }

  /** The RFC's encoding: mask, significant bytes of the destination, router. */
  function Encode(r: Route): (b: seq<byte>)
    requires Canonical(r)
    ensures |b| == 5 + Significant(r.mask)
  {
    [r.mask as byte] + r.dest[..Significant(r.mask)] + r.router
  }

  function EncodeAll(rs: seq<Route>): seq<byte>
    requires forall r | r in rs :: Canonical(r)
  {
    if rs == [] then []
    else
      assert rs[0] in rs;
      Encode(rs[0]) + EncodeAll(rs[1..])
  }

  /** A whole route stands at the start of `b`. */
  predicate StartsWithRoute(b: seq<byte>) {
    |b| >= 5 && b[0] <= 32 && |b| - 1 - Significant(b[0]) >= 4
  }

  function RouteAt(b: seq<byte>): (r: Route)
    requires StartsWithRoute(b)
    ensures Canonical(r)
  {
    var n := Significant(b[0]);
    Route(b[0], b[1..1 + n] + seq(4 - n, _ => 0), b[1 + n..5 + n])
  }

  /** What the decoder finds: routes until one is cut off or has a bad mask. */
  function Decode(b: seq<byte>): (rs: seq<Route>)
    ensures forall r | r in rs :: Canonical(r)
    ensures 5 * |rs| <= |b|
  {
    if !StartsWithRoute(b) then [] else [RouteAt(b)] + Decode(b[5 + Significant(b[0])..])
  }

  /** The encoding byte by byte: the mask, as many bytes of the destination as the mask
      reaches into, and the router. */
  lemma EncodingLayout(r: Route)
    requires Canonical(r)
    ensures var b, n := Encode(r), |Encode(r)| - 5;
      && 8 * (n - 1) < r.mask <= 8 * n <= 32 && b[0] == r.mask
      && (forall k | 0 <= k < 4 :: r.dest[k] == if k < n then b[1 + k] else 0)
      && (forall k | 0 <= k < 4 :: r.router[k] == b[1 + n + k])
  {
    var b, n := Encode(r), Significant(r.mask);
    assert forall k | 0 <= k < n :: b[1 + k] == r.dest[..n][k];
  }

  /** The decoder takes a route exactly where an encoded one stands. */
  lemma StartsWithRouteIff(b: seq<byte>)
    ensures StartsWithRoute(b) <==> exists r :: Canonical(r) && Encode(r) <= b
  {
    if StartsWithRoute(b) {
      EncodeRouteAt(b);
      assert Encode(RouteAt(b)) <= b;
    }
    forall r | Canonical(r) && Encode(r) <= b ensures StartsWithRoute(b) {
      DecodeEncoded(r, b[|Encode(r)|..]);
      assert Encode(r) + b[|Encode(r)|..] == b;
    }
  }

  lemma DecodeEncoded(r: Route, rest: seq<byte>)
    requires Canonical(r)
    ensures var b := Encode(r) + rest;
      StartsWithRoute(b) && RouteAt(b) == r && b[5 + Significant(b[0])..] == rest
  {
    var b, n := Encode(r) + rest, Significant(r.mask);
    assert b[0] == r.mask;
    assert b[1..1 + n] == r.dest[..n];
    assert b[1 + n..5 + n] == r.router;
    assert r.dest == r.dest[..n] + seq(4 - n, _ => 0);
  }

  /** Decoding undoes encoding, for every list of routes, and stops at what is no route. */
  lemma {:induction false} DecodeInvertsEncode(rs: seq<Route>, rest: seq<byte>)
    requires forall r | r in rs :: Canonical(r)
    requires !StartsWithRoute(rest)
    ensures Decode(EncodeAll(rs) + rest) == rs
  {
    if rs == [] {
      assert EncodeAll(rs) + rest == rest;
    } else {
      assert rs[0] in rs;
      var tail := EncodeAll(rs[1..]) + rest;
      assert EncodeAll(rs) + rest == Encode(rs[0]) + tail;
      DecodeEncoded(rs[0], tail);
      DecodeInvertsEncode(rs[1..], rest);
    }
  }

  lemma EncodeRouteAt(b: seq<byte>)
    requires StartsWithRoute(b)
    ensures Encode(RouteAt(b)) == b[..5 + Significant(b[0])]
  {
    var n := Significant(b[0]);
    assert RouteAt(b).dest[..n] == b[1..1 + n];
  }

  /** The routes that are decoded account for a prefix of the option, byte by byte. */
  lemma {:induction false} EncodeInvertsDecode(b: seq<byte>)
    ensures EncodeAll(Decode(b)) <= b
    ensures !StartsWithRoute(b[|EncodeAll(Decode(b))|..])
  {
    if StartsWithRoute(b) {
      EncodeRouteAt(b);
      var len := 5 + Significant(b[0]);
      var r, rest := RouteAt(b), b[len..];
      EncodeInvertsDecode(rest);
      assert ([r] + Decode(rest))[1..] == Decode(rest);
      hide Decode, StartsWithRoute, RouteAt, Encode, Significant;
      assert EncodeAll([r] + Decode(rest)) == b[..len] + EncodeAll(Decode(rest));
      var used := |EncodeAll(Decode(rest))|;
      assert b[len + used..] == rest[used..];
    } else {
      assert b[0..] == b;
    }
  }
}
