/** The classless static route option (option 121) as RFC 3442 describes it, for
    any number of routes, and what a client does with it. */
module ClasslessRoutes {
  import opened Basics

  datatype Route = Route(width: nat, dest: seq<Octet>, router: seq<Octet>)

  /** How many octets of the destination are sent for a mask of this width. */
  function Significant(width: nat): (k: nat)
    ensures width <= 8 * k < width + 8
  {
    (width + 7) / 8
  }

  /** A route that the option can carry: the octets that are not sent are zero. */
  predicate Canonical(r: Route) {
    && r.width <= 32 && |r.dest| == 4 && |r.router| == 4
    && forall i | Significant(r.width) <= i < 4 :: r.dest[i] == 0
  }

  predicate AllCanonical(routes: seq<Route>) { forall r | r in routes :: Canonical(r) }

  function EncodeRoute(r: Route): seq<Octet>
    requires Canonical(r)
  {
    [r.width] + r.dest[..Significant(r.width)] + r.router
  }

  function Encode(routes: seq<Route>): seq<Octet>
    requires AllCanonical(routes)
  {
    if routes == [] then [] else EncodeRoute(routes[0]) + Encode(routes[1..])
  }

  function Zeros(n: nat): (z: seq<Octet>)
    ensures |z| == n && forall i :: 0 <= i < n ==> z[i] == 0
  {
    if n == 0 then [] else Zeros(n - 1) + [0]
  }

  /** The octets of the descriptor and router that start with this width octet. */
  function Size(width: nat): nat { 5 + Significant(width) }

  predicate StartsWithRoute(bytes: seq<Octet>) {
    bytes != [] && bytes[0] <= 32 && Size(bytes[0]) <= |bytes|
  }

  function FirstRoute(bytes: seq<Octet>): (r: Route)
    requires StartsWithRoute(bytes)
    ensures Canonical(r)
  {
    var k := Significant(bytes[0]);
    Route(bytes[0], bytes[1..1 + k] + Zeros(4 - k), bytes[1 + k..5 + k])
  }

  /** Reads descriptor after descriptor; None for a width above 32 or missing octets. */
  function Decode(bytes: seq<Octet>): (r: Option<seq<Route>>)
    ensures r.Some? ==> AllCanonical(r.value)
    decreases |bytes|
  {
    if bytes == [] then Some([])
    else if !StartsWithRoute(bytes) then None
    else
      var rest := Decode(bytes[Size(bytes[0])..]);
      if rest.None? then None else Some([FirstRoute(bytes)] + rest.value)
  }

  lemma FirstOfEncoded(r: Route, rest: seq<Octet>)
    requires Canonical(r)
    ensures var bytes := EncodeRoute(r) + rest;
            StartsWithRoute(bytes) && FirstRoute(bytes) == r && bytes[Size(bytes[0])..] == rest
  {
    var k := Significant(r.width);
    var bytes := EncodeRoute(r) + rest;
    assert bytes[0] == r.width && bytes[5 + k..] == rest;
    assert bytes[1..1 + k] == r.dest[..k] && bytes[1 + k..5 + k] == r.router;
    assert r.dest[..k] + Zeros(4 - k) == r.dest;
  }

  /** Decoding what was encoded gives the routes back. */
  lemma {:induction false} DecodeEncode(routes: seq<Route>)
    requires AllCanonical(routes)
    ensures Decode(Encode(routes)) == Some(routes)
  {
    if routes != [] {
      FirstOfEncoded(routes[0], Encode(routes[1..]));
      DecodeEncode(routes[1..]);
      assert [routes[0]] + routes[1..] == routes;
    }
  }

  lemma EncodeFirst(bytes: seq<Octet>)
    requires StartsWithRoute(bytes)
    ensures EncodeRoute(FirstRoute(bytes)) == bytes[..Size(bytes[0])]
  {
    var k := Significant(bytes[0]);
    assert FirstRoute(bytes).dest[..k] == bytes[1..1 + k];
  }

  lemma EncodeCons(r: Route, rest: seq<Route>)
    requires Canonical(r) && AllCanonical(rest)
    ensures Encode([r] + rest) == EncodeRoute(r) + Encode(rest)
  {
    assert ([r] + rest)[0] == r && ([r] + rest)[1..] == rest;
  }

  /** Encoding what was decoded gives the bytes back: the option has one encoding for each list of routes. */
  lemma {:induction false} EncodeDecode(bytes: seq<Octet>)
    ensures Decode(bytes).Some? ==> Encode(Decode(bytes).value) == bytes
    decreases |bytes|
  {
    if bytes != [] && Decode(bytes).Some? {
      var n := Size(bytes[0]);
      var rest := Decode(bytes[n..]).value;
      EncodeDecode(bytes[n..]);
      EncodeFirst(bytes);
      EncodeCons(FirstRoute(bytes), rest);
      assert bytes == bytes[..n] + bytes[n..];
    }
  }

  // ---------- forwarding ----------

  function Word(a: seq<Octet>): nat
    requires |a| == 4
  {
    HighWord(a) * 256 + a[3] as int
  }

  function HighWord(a: seq<Octet>): nat
    requires |a| == 4
  {
    (a[0] as int * 256 + a[1] as int) * 256 + a[2] as int
  }

  function Pow2(n: nat): (p: nat)
    ensures p > 0
  {
    if n == 0 then 1 else 2 * Pow2(n - 1)
  }

  /** The first `width` bits agree. */
  predicate Covers(r: Route, addr: seq<Octet>)
    requires Canonical(r) && |addr| == 4
  {
    Word(r.dest) / Pow2(32 - r.width) == Word(addr) / Pow2(32 - r.width)
  }

  /** The most specific route for an address, the first of equals. */
  function BestRoute(routes: seq<Route>, addr: seq<Octet>): (r: Option<Route>)
    requires AllCanonical(routes) && |addr| == 4
    ensures r.Some? ==> Canonical(r.value)
  {
    if routes == [] then None
    else
      var rest := BestRoute(routes[1..], addr);
      if Covers(routes[0], addr) && (rest.None? || rest.value.width <= routes[0].width) then Some(routes[0]) else rest
  }

  function NextHop(routes: seq<Route>, addr: seq<Octet>): Option<seq<Octet>>
    requires AllCanonical(routes) && |addr| == 4
  {
    var r := BestRoute(routes, addr);
    if r.None? then None else Some(r.value.router)
  }

  lemma WordBounds(a: seq<Octet>)
    requires |a| == 4
    ensures Word(a) < 0x1_0000_0000
  {
  }

  lemma SameWord(a: seq<Octet>, b: seq<Octet>)
    requires |a| == 4 && |b| == 4
    ensures Word(a) == Word(b) <==> a == b
  {
    if Word(a) == Word(b) {
      assert HighWord(a) == HighWord(b);
      assert a == [a[0], a[1], a[2], a[3]] && b == [b[0], b[1], b[2], b[3]];
    }
  }

  lemma Pow2Of32()
    ensures Pow2(32) == 0x1_0000_0000
  {
    assert Pow2(8) == 256;
    assert Pow2(16) == 0x1_0000;
    assert Pow2(24) == 0x100_0000;
  }

  /** A host route covers its own address only, a default route every address. */
  lemma {:induction false} CoversAtTheEnds(r: Route, addr: seq<Octet>)
    requires Canonical(r) && |addr| == 4
    ensures r.width == 32 ==> (Covers(r, addr) <==> r.dest == addr)
    ensures r.width == 0 ==> Covers(r, addr)
  {
    SameWord(r.dest, addr);
    if r.width == 32 {
      assert Pow2(0) == 1;
      DivideByOne(Word(r.dest));
      DivideByOne(Word(addr));
    } else if r.width == 0 {
      Pow2Of32();
      WordBounds(r.dest);
      WordBounds(addr);
      DivideByMore(Word(r.dest), Pow2(32));
      DivideByMore(Word(addr), Pow2(32));
    }
  }

  lemma DivideByOne(n: nat)
    ensures n / 1 == n
  {
  }

  lemma DivideByMore(n: nat, d: nat)
    requires n < d
    ensures n / d == 0
  {
  }
}
