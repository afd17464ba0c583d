/** Route lookup, server/Layer3/layer3.c and apply_mask of server/utils.c.  The longest matching prefix should
    win (RFC 1812, section 5.2.4.3); the code compares prefixes as texts, which is not always the same. */
module RouteTable {
  import opened AddressText
  import opened Arithmetic
  import opened Lists
  import opened Options

  const MAX_NXT_HOPS: nat := 4

  function Pow2(n: nat): (r: nat)
    ensures 0 < r
  {
    if n == 0 then 1 else 2 * Pow2(n - 1)
  }

  lemma AtMost(a: nat, p: nat)
    requires 0 < p
    ensures a % p <= a
  {
  }

  /** The address with the bits below the mask cleared. */
  function ApplyMask(addr: nat, mask: nat): nat
    requires mask <= 32
  {
    AtMost(addr, Pow2(32 - mask));
    addr - addr % Pow2(32 - mask)
  }

  // ---- what a mask does to the bits of an address ----

  /** Bit k of a, counted from the lowest. */
  predicate Bit(a: nat, k: nat)
  {
    if k == 0 then a % 2 == 1 else Bit(a / 2, k - 1)
  }

  /** The m topmost of the 32 bits of a and b are the same. */
  ghost predicate Agree(a: nat, b: nat, m: nat)
  {
    forall k: nat | 32 <= k + m && k < 32 :: Bit(a, k) <==> Bit(b, k)
  }

  /** Halving an address whose lowest bits are cleared. */
  lemma HalfOfCleared(a: nat, p: nat)
    requires 0 < p
    ensures var r := a - a % (2 * p); 0 <= r && r % 2 == 0 && r / 2 == a / 2 - a / 2 % p
  {
    var h := a / 2;
    assert h == p * (h / p) + h % p;
    Remainder(a, 2 * p, h / p, 2 * (h % p) + a % 2);
    assert a - a % (2 * p) == 2 * (h - h % p);
  }

  lemma {:induction false} ClearedBits(a: nat, n: nat, k: nat)
    ensures a % Pow2(n) <= a
    ensures Bit(a - a % Pow2(n), k) <==> n <= k && Bit(a, k)
    decreases n
  {
    AtMost(a, Pow2(n));
    if n > 0 {
      HalfOfCleared(a, Pow2(n - 1));
      assert Pow2(n) == 2 * Pow2(n - 1);
      if k > 0 {
        ClearedBits(a / 2, n - 1, k - 1);
      }
    }
  }

  predicate IsAddr(a: nat)
  {
    a < 0x1_0000_0000
  }

  /** A mask of m leaves the m topmost bits of an address as they are and clears all below. */
  lemma MaskBits(addr: nat, mask: nat, k: nat)
    requires IsAddr(addr) && mask <= 32
    ensures Bit(ApplyMask(addr, mask), k) <==> 32 <= k + mask && Bit(addr, k)
  {
    ClearedBits(addr, 32 - mask, k);
  }

  /** Numbers of n bits are equal if all their bits are. */
  lemma {:induction false} SameBits(a: nat, b: nat, n: nat)
    requires a < Pow2(n) && b < Pow2(n) && forall k: nat | k < n :: Bit(a, k) <==> Bit(b, k)
    ensures a == b
  {
    if n > 0 {
      forall k: nat | k < n - 1 ensures Bit(a / 2, k) <==> Bit(b / 2, k) {
        assert Bit(a, k + 1) <==> Bit(b, k + 1);
      }
      SameBits(a / 2, b / 2, n - 1);
      assert Bit(a, 0) <==> Bit(b, 0);
    }
  }

  datatype NextHop = NextHop(gw: nat, oif: nat, ifindex: nat)

  /** What rt_table_add_route is given for a next hop. */
  datatype Gateway = Gateway(gw: nat, oif: nat)

  /** nexthops has MAX_NXT_HOPS places, those in use coming first. */
  datatype Route = Route(dest: nat, mask: nat, isDirect: bool, nexthops: seq<Option<NextHop>>, metric: nat)

  /** The places in use come first, by interface index. */
  ghost predicate HopsOk(a: seq<Option<NextHop>>)
  {
    && |a| == MAX_NXT_HOPS
    && (forall i, j | 0 <= i < j < |a| && a[j].Some? :: a[i].Some? && a[i].value.ifindex <= a[j].value.ifindex)
  }

  /** No next hop is there twice. */
  ghost predicate HopsDiffer(a: seq<Option<NextHop>>)
  {
    forall i, j | 0 <= i < j < |a| && a[i].Some? && a[j].Some? ::
      a[i].value.gw != a[j].value.gw || a[i].value.oif != a[j].value.oif
  }

  /** The prefix of a route has no bits below its mask; its next hops come by interface index, each once. */
  ghost predicate RouteOk(r: Route)
  {
    r.mask <= 32 && IsAddr(r.dest) && ApplyMask(r.dest, r.mask) == r.dest && HopsOk(r.nexthops)
      && HopsDiffer(r.nexthops)
  }

  /** The route's prefix and the address have the same topmost bits, as many as the mask says. */
  ghost predicate Matches(r: Route, ip: nat)
  {
    r.mask <= 32 && Agree(r.dest, ip, r.mask)
  }

  lemma {:induction false} PowersAdd(m: nat, n: nat)
    ensures Pow2(m + n) == Pow2(m) * Pow2(n)
  {
    if m > 0 {
      PowersAdd(m - 1, n);
      assert Pow2(m + n) == 2 * Pow2(m + n - 1);
    }
  }

  lemma WholeRange()
    ensures Pow2(32) == 0x1_0000_0000
  {
    assert Pow2(4) == 16;
    PowersAdd(4, 4);
    PowersAdd(8, 8);
    PowersAdd(16, 16);
  }

  /** That is what the code's masking comes to. */
  lemma MaskedMatches(r: Route, ip: nat)
    requires RouteOk(r) && IsAddr(ip)
    ensures Matches(r, ip) <==> ApplyMask(ip, r.mask) == r.dest
  {
    var a := ApplyMask(ip, r.mask);
    forall k: nat ensures Bit(a, k) <==> 32 <= k + r.mask && Bit(ip, k) {
      MaskBits(ip, r.mask, k);
    }
    forall k: nat ensures Bit(r.dest, k) <==> 32 <= k + r.mask && Bit(r.dest, k) {
      MaskBits(r.dest, r.mask, k);
    }
    WholeRange();
    hide Bit, ApplyMask;
    if Matches(r, ip) {
      SameBits(a, r.dest, 32);
    }
  }

  predicate SameKey(a: Route, b: Route)
  {
    a.dest == b.dest && a.mask == b.mask
  }

  ghost predicate TableOk(routes: seq<Route>)
  {
    && (forall i | 0 <= i < |routes| :: RouteOk(routes[i]))
    && (forall i, j | 0 <= i < j < |routes| :: !SameKey(routes[i], routes[j]))
  }

  /** r is a matching route, and none that matches has a longer mask. */
  ghost predicate IsBest(routes: seq<Route>, ip: nat, r: Route)
  {
    r in routes && Matches(r, ip) && forall i | 0 <= i < |routes| && Matches(routes[i], ip) :: routes[i].mask <= r.mask
  }

  ghost predicate NoMatch(routes: seq<Route>, ip: nat)
  {
    forall i | 0 <= i < |routes| :: !Matches(routes[i], ip)
  }

  // ---- matching as the code does it ----

  /** strncmp on the text of the masked address and that of the route, up to the length of the former. */
  predicate TextMatches(r: Route, ip: nat)
  {
    r.mask <= 32 && Text(ApplyMask(ip, r.mask)) <= Text(r.dest)
  }

  /** The route does not match, but the two addresses differ in the last number only and the digits of the
      one looked up come first in those of the route's. */
  predicate Overlaps(r: Route, ip: nat)
  {
    r.mask <= 32 && ApplyMask(ip, r.mask) / 256 == r.dest / 256
      && LeadingDigits(ApplyMask(ip, r.mask) % 256, r.dest % 256)
  }

  /** What the comparison accepts: the routes that match, and those that overlap. */
  lemma TextMatchesExactly(r: Route, ip: nat)
    requires RouteOk(r) && IsAddr(ip)
    ensures TextMatches(r, ip) <==> Matches(r, ip) || Overlaps(r, ip)
    ensures !(Matches(r, ip) && Overlaps(r, ip))
  {
    TextPrefix(ApplyMask(ip, r.mask), r.dest);
    MaskedMatches(r, ip);
    hide ApplyMask, Text, Matches;
  }

  /** The route could be the answer to a look-up other than by default. */
  predicate Takes(r: Route, ip: nat)
  {
    0 < r.mask && TextMatches(r, ip)
  }

  ghost predicate NoneTakes(routes: seq<Route>, ip: nat)
  {
    forall i | 0 <= i < |routes| :: !Takes(routes[i], ip)
  }

  /** The first of the longest routes that the comparison accepts. */
  ghost predicate FirstLongest(routes: seq<Route>, ip: nat, k: nat)
  {
    && k < |routes| && Takes(routes[k], ip)
    && forall i | 0 <= i < |routes| && Takes(routes[i], ip) ::
         routes[i].mask <= routes[k].mask && (i < k ==> routes[i].mask < routes[k].mask)
  }

  /** What l3rib_lookup_lpm returns. */
  ghost predicate Answers(routes: seq<Route>, ip: nat, r: Option<Route>)
  {
    match r
    case None => NoneTakes(routes, ip) && forall i | 0 <= i < |routes| :: routes[i].mask != 0
    case Some(x) =>
      if NoneTakes(routes, ip) then x in routes && x.mask == 0 else exists k {:trigger FirstLongest(routes, ip, k)} ::
        0 <= k && FirstLongest(routes, ip, k) && x == routes[k]
  }

  /** What it should return. */
  ghost predicate Right(routes: seq<Route>, ip: nat, r: Option<Route>)
  {
    (r == None <==> NoMatch(routes, ip)) && (r.Some? ==> IsBest(routes, ip, r.value))
  }

  /** Some route that does match is longer than route i, or as long and further to the front. */
  ghost predicate Shadowed(routes: seq<Route>, ip: nat, i: nat)
    requires i < |routes|
  {
    exists j | 0 <= j < |routes| :: Matches(routes[j], ip) &&
      (routes[j].mask > routes[i].mask || (routes[j].mask == routes[i].mask && j < i))
  }

  lemma MaskZero(a: nat)
    requires IsAddr(a)
    ensures ApplyMask(a, 0) == 0
  {
    WholeRange();
    hide Pow2;
    var p := Pow2(32);
    assert a == a + p * 0;
    Remainder(a, p, 0, a);
  }

  lemma OverlapIsLong(r: Route, ip: nat)
    requires RouteOk(r) && Overlaps(r, ip)
    ensures 0 < r.mask
  {
    hide ApplyMask;
    if r.mask == 0 {
      MaskZero(r.dest);
    }
  }

  lemma TakesExactly(r: Route, ip: nat)
    requires RouteOk(r) && IsAddr(ip)
    ensures Takes(r, ip) <==> (Matches(r, ip) && 0 < r.mask) || Overlaps(r, ip)
    ensures !(Matches(r, ip) && Overlaps(r, ip))
  {
    TextMatchesExactly(r, ip);
    if Overlaps(r, ip) {
      OverlapIsLong(r, ip);
    }
  }

  /** The route of mask 0 matches every address, and it can only be the default route. */
  lemma DefaultRoute(r: Route, ip: nat)
    requires RouteOk(r) && IsAddr(ip) && r.mask == 0
    ensures r.dest == 0 && Matches(r, ip)
  {
    MaskZero(ip);
    MaskZero(r.dest);
    hide ApplyMask;
  }

  lemma AllTake(routes: seq<Route>, ip: nat)
    requires TableOk(routes) && IsAddr(ip)
    ensures forall i {:trigger routes[i]} | 0 <= i < |routes| ::
      && (Takes(routes[i], ip) <==> (Matches(routes[i], ip) && 0 < routes[i].mask) || Overlaps(routes[i], ip))
      && !(Matches(routes[i], ip) && Overlaps(routes[i], ip))
      && (routes[i].mask == 0 ==> Matches(routes[i], ip))
  {
    forall i | 0 <= i < |routes|
      ensures Takes(routes[i], ip) <==> (Matches(routes[i], ip) && 0 < routes[i].mask) || Overlaps(routes[i], ip)
      ensures !(Matches(routes[i], ip) && Overlaps(routes[i], ip))
      ensures routes[i].mask == 0 ==> Matches(routes[i], ip)
    {
      TakesExactly(routes[i], ip);
      if routes[i].mask == 0 {
        DefaultRoute(routes[i], ip);
      }
    }
  }

  lemma RightByDefault(routes: seq<Route>, ip: nat, r: Option<Route>)
    requires TableOk(routes) && IsAddr(ip) && Answers(routes, ip, r) && NoneTakes(routes, ip)
    ensures Right(routes, ip, r) && forall i | 0 <= i < |routes| :: !Overlaps(routes[i], ip)
  {
    AllTake(routes, ip);
    hide Matches, Overlaps, Takes, RouteOk;
    assert forall i | 0 <= i < |routes| && Matches(routes[i], ip) :: routes[i].mask == 0;
  }

  lemma RightIfItMatches(routes: seq<Route>, ip: nat, k: nat)
    requires TableOk(routes) && IsAddr(ip) && FirstLongest(routes, ip, k)
    ensures Matches(routes[k], ip) <==> IsBest(routes, ip, routes[k])
    ensures Matches(routes[k], ip) ==>
      forall i | 0 <= i < |routes| && Overlaps(routes[i], ip) :: Shadowed(routes, ip, i)
    ensures !Matches(routes[k], ip) ==> Overlaps(routes[k], ip) && !Shadowed(routes, ip, k)
  {
    AllTake(routes, ip);
    hide Matches, Overlaps, Takes, RouteOk;
    if Matches(routes[k], ip) {
      forall i | 0 <= i < |routes| && Matches(routes[i], ip) ensures routes[i].mask <= routes[k].mask {
        assert routes[i].mask == 0 || Takes(routes[i], ip);
      }
      forall i | 0 <= i < |routes| && Overlaps(routes[i], ip) ensures Shadowed(routes, ip, i) {
        assert Takes(routes[i], ip);
      }
    } else {
      forall j | 0 <= j < |routes| && Matches(routes[j], ip)
        ensures routes[j].mask <= routes[k].mask && (routes[j].mask == routes[k].mask ==> k <= j)
      {
        assert routes[j].mask == 0 || Takes(routes[j], ip);
      }
    }
  }

  /** The look-up gives the longest match, or none if nothing matches, if and only if every overlapping
      route is shadowed by a matching one. */
  lemma RightExactly(routes: seq<Route>, ip: nat, r: Option<Route>)
    requires TableOk(routes) && IsAddr(ip) && Answers(routes, ip, r)
    ensures Right(routes, ip, r) <==> forall i | 0 <= i < |routes| && Overlaps(routes[i], ip) :: Shadowed(routes, ip, i)
  {
    if NoneTakes(routes, ip) {
      RightByDefault(routes, ip, r);
    } else {
      var k :| 0 <= k && FirstLongest(routes, ip, k) && r == Some(routes[k]);
      RightIfItMatches(routes, ip, k);
      hide Matches, Overlaps, Takes, RouteOk, Shadowed, FirstLongest;
    }
  }

  /** Among the routes that match there is one longest, whatever the order of the list. */
  lemma OneLongestMatch(a: seq<Route>, b: seq<Route>, ip: nat, r: Route, s: Route)
    requires TableOk(a) && (forall x :: x in a <==> x in b) && IsAddr(ip)
    requires IsBest(a, ip, r) && IsBest(b, ip, s)
    ensures r == s
  {
    assert RouteOk(r) && RouteOk(s);
    MaskedMatches(r, ip);
    MaskedMatches(s, ip);
    hide Matches, ApplyMask, RouteOk;
    assert r.mask == s.mask && r.dest == s.dest;
  }

  lemma NoMatchAnyOrder(a: seq<Route>, b: seq<Route>, ip: nat)
    requires forall x :: x in a <==> x in b
    ensures NoMatch(a, ip) <==> NoMatch(b, ip)
  {
    if NoMatch(a, ip) {
      forall i | 0 <= i < |b| ensures !Matches(b[i], ip) {
        assert b[i] in a;
      }
    }
    if NoMatch(b, ip) {
      forall i | 0 <= i < |a| ensures !Matches(a[i], ip) {
        assert a[i] in b;
      }
    }
  }

  /** With no overlapping route, as when no two prefixes differ in the digits of their last number only, the
      answer is right and the same for every order of the list. */
  lemma RightInAnyOrder(a: seq<Route>, b: seq<Route>, ip: nat, r: Option<Route>, s: Option<Route>)
    requires TableOk(a) && TableOk(b) && (forall x :: x in a <==> x in b) && IsAddr(ip)
    requires forall i | 0 <= i < |a| :: !Overlaps(a[i], ip)
    requires Answers(a, ip, r) && Answers(b, ip, s)
    ensures Right(a, ip, r) && r == s
  {
    RightExactly(a, ip, r);
    forall i | 0 <= i < |b| ensures !Overlaps(b[i], ip) {
      assert b[i] in a;
    }
    RightExactly(b, ip, s);
    NoMatchAnyOrder(a, b, ip);
    if r.Some? && s.Some? {
      OneLongestMatch(a, b, ip, r.value, s.value);
    }
  }

  ghost predicate Longest(routes: seq<Route>, ip: nat, k: nat)
  {
    && k < |routes| && Takes(routes[k], ip)
    && forall i | 0 <= i < |routes| && Takes(routes[i], ip) :: routes[i].mask <= routes[k].mask
  }

  /** Two of the longest routes that the comparison accepts are equally long. */
  ghost predicate Tied(routes: seq<Route>, ip: nat)
  {
    exists i, j :: 0 <= i < j < |routes| && routes[i].mask == routes[j].mask && Longest(routes, ip, i)
      && Longest(routes, ip, j)
  }

  ghost predicate SameRoutes(a: seq<Route>, b: seq<Route>)
  {
    TableOk(b) && forall x :: x in a <==> x in b
  }

  lemma {:induction false} FirstOfLongest(routes: seq<Route>, ip: nat, i: nat) returns (k: nat)
    requires Longest(routes, ip, i)
    ensures k <= i && FirstLongest(routes, ip, k)
    decreases i
  {
    if j :| 0 <= j < i && Takes(routes[j], ip) && routes[j].mask == routes[i].mask {
      k := FirstOfLongest(routes, ip, j);
    } else {
      k := i;
    }
  }

  function Swap(i: nat, j: nat): nat
  {
    if i == 0 then j else if i == j then 0 else i
  }

  lemma SameKeyBothWays(a: Route, b: Route)
    ensures SameKey(a, b) <==> SameKey(b, a)
  {
  }

  lemma ToFront(a: seq<Route>, j: nat) returns (b: seq<Route>)
    requires TableOk(a) && j < |a|
    ensures SameRoutes(a, b) && b != [] && b[0] == a[j]
  {
    hide RouteOk, SameKey;
    b := a[0 := a[j]][j := a[0]];
    assert forall i {:trigger Swap(i, j)} | 0 <= i < |a| :: b[i] == a[Swap(i, j)] && b[Swap(i, j)] == a[i];
    forall i | 0 <= i < |b| ensures RouteOk(b[i]) && b[i] in a && a[i] in b {
      assert b[i] == a[Swap(i, j)] && b[Swap(i, j)] == a[i];
    }
    forall i, k | 0 <= i < k < |b| ensures !SameKey(b[i], b[k]) {
      assert b[i] == a[Swap(i, j)] && b[k] == a[Swap(k, j)];
      SameKeyBothWays(b[i], b[k]);
    }
  }

  lemma TieDecides(a: seq<Route>, ip: nat)
    requires TableOk(a) && Tied(a, ip)
    ensures exists b, r, s :: SameRoutes(a, b) && Answers(a, ip, r) && Answers(b, ip, s) && r != s
  {
    hide Takes, RouteOk;
    var i, j :| 0 <= i < j < |a| && a[i].mask == a[j].mask && Longest(a, ip, i) && Longest(a, ip, j);
    var k := FirstOfLongest(a, ip, i);
    var b := ToFront(a, j);
    forall i | 0 <= i < |b| && Takes(b[i], ip) ensures b[i].mask <= b[0].mask {
      assert b[i] in a;
    }
    assert FirstLongest(b, ip, 0);
    assert !NoneTakes(a, ip) && !NoneTakes(b, ip);
    assert Answers(a, ip, Some(a[k])) && Answers(b, ip, Some(b[0])) && SameRoutes(a, b);
    assert !SameKey(a[k], a[j]);
  }

  lemma OneDefault(a: seq<Route>, x: Route, y: Route)
    requires TableOk(a) && x in a && y in a && x.mask == 0 == y.mask
    ensures x == y
  {
    hide ApplyMask, HopsOk;
    var i :| 0 <= i < |a| && a[i] == x;
    var j :| 0 <= j < |a| && a[j] == y;
    MaskZero(x.dest);
    MaskZero(y.dest);
    assert i != j ==> !SameKey(a[i], a[j]) || !SameKey(a[j], a[i]);
  }

  lemma DifferentAnswersTie(a: seq<Route>, b: seq<Route>, ip: nat, r: Option<Route>, s: Option<Route>)
    requires TableOk(a) && SameRoutes(a, b) && Answers(a, ip, r) && Answers(b, ip, s) && r != s
    ensures Tied(a, ip)
  {
    hide Takes, RouteOk;
    assert forall i | 0 <= i < |a| :: a[i] in b;
    assert forall i | 0 <= i < |b| :: b[i] in a;
    if NoneTakes(a, ip) {
      if r.Some? && s.Some? {
        OneDefault(a, r.value, s.value);
      }
    } else {
      var k :| 0 <= k && FirstLongest(a, ip, k) && r == Some(a[k]);
      var l :| 0 <= l && FirstLongest(b, ip, l) && s == Some(b[l]);
      var j :| 0 <= j < |a| && a[j] == b[l];
      var m :| 0 <= m < |b| && b[m] == a[k];
      assert Longest(a, ip, k) && Longest(a, ip, j) && a[j].mask == a[k].mask;
      assert j < k || k < j;
    }
  }

  /** The order of the list decides the answer exactly when there is such a tie. */
  lemma OrderMattersExactly(a: seq<Route>, ip: nat)
    requires TableOk(a)
    ensures Tied(a, ip) <==> exists b, r, s :: SameRoutes(a, b) && Answers(a, ip, r) && Answers(b, ip, s) && r != s
  {
    if Tied(a, ip) {
      TieDecides(a, ip);
    }
    if b, r, s :| SameRoutes(a, b) && Answers(a, ip, r) && Answers(b, ip, s) && r != s {
      DifferentAnswersTie(a, b, ip, r, s);
    }
  }

  lemma HostRoute(dest: nat, ip: nat, hops: seq<Option<NextHop>>)
    requires IsAddr(dest) && IsAddr(ip) && HopsOk(hops) && HopsDiffer(hops)
    ensures var r := Route(dest, 32, false, hops, 0);
      && RouteOk(r) && (Matches(r, ip) <==> ip == dest)
      && (Overlaps(r, ip) <==> ip / 256 == dest / 256 && LeadingDigits(ip % 256, dest % 256))
  {
    assert Pow2(0) == 1;
    assert ApplyMask(dest, 32) == dest && ApplyMask(ip, 32) == ip;
    MaskedMatches(Route(dest, 32, false, hops, 0), ip);
    hide ApplyMask, Matches;
  }

  lemma FirstOfTwo(x: Route, y: Route, ip: nat)
    requires RouteOk(x) && RouteOk(y) && !SameKey(x, y) && Takes(x, ip) && x.mask == y.mask
    ensures TableOk([x, y]) && Answers([x, y], ip, Some(x))
  {
    hide RouteOk, Takes, SameKey;
    assert Takes([x, y][0], ip);
    assert FirstLongest([x, y], ip, 0);
  }

  /** It does go wrong: with routes to the hosts 10.1.1.10 and 10.1.1.1, in this order, a look-up of the latter
      finds the former. */
  lemma WrongHost(hops: seq<Option<NextHop>>)
    requires HopsOk(hops) && HopsDiffer(hops)
    ensures var ten, one := Route(0x0a01_010a, 32, false, hops, 0), Route(0x0a01_0101, 32, false, hops, 0);
      && TableOk([ten, one]) && Matches(one, one.dest) && !Matches(ten, one.dest)
      && Answers([ten, one], one.dest, Some(ten)) && Answers([one, ten], one.dest, Some(one))
  {
    hide Matches, Overlaps, Takes, RouteOk, HopsOk, TableOk, Answers;
    var ten, one := Route(0x0a01_010a, 32, false, hops, 0), Route(0x0a01_0101, 32, false, hops, 0);
    HostRoute(ten.dest, one.dest, hops);
    HostRoute(one.dest, one.dest, hops);
    TakesExactly(ten, one.dest);
    TakesExactly(one, one.dest);
    FirstOfTwo(ten, one, one.dest);
    FirstOfTwo(one, ten, one.dest);
  }

  /** Masking twice is masking once. */
  lemma MaskedIsMasked(addr: nat, mask: nat)
    requires mask <= 32 && IsAddr(addr)
    ensures IsAddr(ApplyMask(addr, mask)) && ApplyMask(ApplyMask(addr, mask), mask) == ApplyMask(addr, mask)
  {
    var p := Pow2(32 - mask);
    hide Pow2;
    assert addr == p * (addr / p) + addr % p;
    Remainder(p * (addr / p), p, addr / p, 0);
  }

  /** The hop put in its place: behind those of the same or a lower index, in front of the higher ones. */
  ghost predicate Inserted(a: seq<Option<NextHop>>, hop: NextHop, b: seq<Option<NextHop>>, p: nat)
  {
    && 0 < |a| && p < |a| && b == a[..p] + [Some(hop)] + a[p..|a| - 1]
    && (forall j | 0 <= j < p :: a[j].Some? && a[j].value.ifindex <= hop.ifindex)
    && (forall j | p <= j < |a| && a[j].Some? :: a[j].value.ifindex > hop.ifindex)
  }

  lemma InsertedHere(a: seq<Option<NextHop>>, hop: NextHop, b: seq<Option<NextHop>>, p: nat)
    requires HopsOk(a) && a[MAX_NXT_HOPS - 1] == None && p < MAX_NXT_HOPS
      && b == a[..p] + [Some(hop)] + a[p..MAX_NXT_HOPS - 1]
    requires p > 0 ==> a[p - 1].Some? && a[p - 1].value.ifindex <= hop.ifindex
    requires forall j | p <= j < MAX_NXT_HOPS - 1 && a[j].Some? :: a[j].value.ifindex > hop.ifindex
    ensures Inserted(a, hop, b, p) && HopsOk(b)
  {
    assert b == Put(a[..MAX_NXT_HOPS - 1], p, Some(hop));
    forall i, j | 0 <= i < j < |b| && b[j].Some? ensures b[i].Some? && b[i].value.ifindex <= b[j].value.ifindex {
      PutAt(a[..MAX_NXT_HOPS - 1], p, Some(hop), i);
      PutAt(a[..MAX_NXT_HOPS - 1], p, Some(hop), j);
    }
  }

  /** l3_route_insert_nexthop: it starts in the last place and moves forward. */
  method InsertNexthop(a: seq<Option<NextHop>>, hop: NextHop) returns (ok: bool, b: seq<Option<NextHop>>)
    requires HopsOk(a)
    ensures HopsOk(b)
    ensures ok <==> a[MAX_NXT_HOPS - 1] == None
    ensures !ok ==> b == a
    ensures ok ==> exists p :: Inserted(a, hop, b, p)
  {
    var last := MAX_NXT_HOPS - 1;
    if a[last].Some? {
      return false, a;
    }
    ok := true;
    var i := last;
    b := a[last := Some(hop)];
    while i > 0 && (b[i - 1] == None || b[i - 1].value.ifindex > b[i].value.ifindex)
      invariant 0 <= i <= last && |b| == |a| && b == a[..i] + [Some(hop)] + a[i..last]
      invariant forall j | i <= j < last && a[j].Some? :: a[j].value.ifindex > hop.ifindex
    {
      b := b[i := b[i - 1]][i - 1 := b[i]];
      i := i - 1;
    }
    InsertedHere(a, hop, b, i);
  }

  /** With all indexes 0 the insertion sorts nothing: the new hop goes to the first place not in use. */
  lemma InsertedLast(a: seq<Option<NextHop>>, hop: NextHop, b: seq<Option<NextHop>>, p: nat)
    requires HopsOk(a) && Inserted(a, hop, b, p) && hop.ifindex == 0
      && forall i | 0 <= i < |a| && a[i].Some? :: a[i].value.ifindex == 0
    requires a[MAX_NXT_HOPS - 1] == None
    ensures a[p] == None && (forall i | 0 <= i < p :: a[i].Some?) && b == a[p := Some(hop)]
  {
    assert forall i | p <= i < |a| :: a[i] == None;
  }

  class RtTable {
    var routes: seq<Route>

    constructor ()
      ensures routes == [] && TableOk(routes)
    {
      routes := [];
    }

    /** l3rib_lookup_lpm. */
    method LookupLpm(ip: nat) returns (r: Option<Route>)
      requires TableOk(routes) && IsAddr(ip)
      ensures Answers(routes, ip, r)
      ensures Right(routes, ip, r) <==>
        forall i | 0 <= i < |routes| && Overlaps(routes[i], ip) :: Shadowed(routes, ip, i)
    {
      hide ApplyMask, Text, Agree;
      var lpm: Option<Route>, default: Option<Route>, longestMask := None, None, 0;
      ghost var at := 0;
      var k := 0;
      while k < |routes|
        invariant k <= |routes|
        invariant lpm.None? ==> longestMask == 0
        invariant lpm.Some? ==>
          at < k && lpm.value == routes[at] && Takes(routes[at], ip) && routes[at].mask == longestMask
            && 0 < longestMask
        invariant forall i | 0 <= i < k && Takes(routes[i], ip) ::
          routes[i].mask <= longestMask && (i < at ==> routes[i].mask < longestMask)
        invariant default.Some? ==> default.value in routes && default.value.mask == 0
        invariant forall i | 0 <= i < k && routes[i].mask == 0 :: default.Some?
      {
        var route := routes[k];
        assert RouteOk(route);
        if route.mask == 0 {
          MaskZero(route.dest);
        }
        if Text(route.dest) == Text(0) && route.mask == 0 {
          default := Some(route);
        } else if Text(ApplyMask(ip, route.mask)) <= Text(route.dest) {
          if route.mask > longestMask {
            longestMask := route.mask;
            lpm := Some(route);
            at := k;
          }
        }
        k := k + 1;
      }
      r := if lpm.Some? then lpm else default;
      if lpm.Some? {
        assert FirstLongest(routes, ip, at);
      }
      RightExactly(routes, ip, r);
      hide *;
    }

    /** l3rib_lookup: the route of exactly this prefix and mask. */
    method Lookup(ip: nat, mask: nat) returns (k: int)
      requires mask <= 32
      ensures -1 <= k < |routes|
      ensures 0 <= k ==> routes[k].dest == ApplyMask(ip, mask) && routes[k].mask == mask
      ensures k < 0 ==> forall i | 0 <= i < |routes| ::
        !(routes[i].dest == ApplyMask(ip, mask) && routes[i].mask == mask)
    {
      hide ApplyMask, Text;
      k := 0;
      while k < |routes|
        invariant 0 <= k <= |routes|
        invariant forall i | 0 <= i < k :: !(routes[i].dest == ApplyMask(ip, mask) && routes[i].mask == mask)
      {
        TextSame(ApplyMask(ip, mask), routes[k].dest);
        if Text(ApplyMask(ip, mask)) == Text(routes[k].dest) && routes[k].mask == mask {
          return;
        }
        k := k + 1;
      }
      k := -1;
    }

    /** Some next hop has this gateway and interface. */
    static ghost predicate HasHop(a: seq<Option<NextHop>>, gw: nat, oif: nat)
    {
      exists j | 0 <= j < |a| :: a[j].Some? && a[j].value.gw == gw && a[j].value.oif == oif
    }

    /** The route for a prefix after a hop was added, if there was room and it was not there yet. */
    static ghost predicate Extended(r: Route, r': Route, hop: NextHop, metric: nat)
    {
      if HasHop(r.nexthops, hop.gw, hop.oif) || (0 < |r.nexthops| && r.nexthops[|r.nexthops| - 1].Some?) then r' == r
      else
        && SameKey(r, r') && !r'.isDirect && r'.metric == metric
        && exists p :: Inserted(r.nexthops, hop, r'.nexthops, p)
    }

    static lemma InsertedHops(a: seq<Option<NextHop>>, hop: NextHop, b: seq<Option<NextHop>>, p: nat)
      requires Inserted(a, hop, b, p) && HopsDiffer(a) && !HasHop(a, hop.gw, hop.oif) && a[|a| - 1] == None
      ensures p < |b| && HopsDiffer(b) && b[p] == Some(hop)
      ensures forall j | 0 <= j < |a| && a[j].Some? :: a[j] in b
      ensures forall j | 0 <= j < |b| && b[j].Some? :: b[j] in a || b[j] == Some(hop)
    {
      forall j | 0 <= j < |a| && a[j].Some? ensures a[j] in b {
        assert b[if j < p then j else j + 1] == a[j];
      }
      forall j | 0 <= j < |b| ensures b[j] == if j < p then a[j] else if j == p then Some(hop) else a[j - 1] {
      }
    }

    /** So the hop is one of the route's afterwards unless all places were taken, the others are as before,
        and still none is there twice. */
    static lemma ExtendedHops(r: Route, r': Route, hop: NextHop, metric: nat)
      requires RouteOk(r) && Extended(r, r', hop, metric)
      ensures HopsDiffer(r'.nexthops) && r'.dest == r.dest && r'.mask == r.mask
      ensures r' != r ==> !r'.isDirect && r'.metric == metric
      ensures (exists j | 0 <= j < |r'.nexthops| ::
        r'.nexthops[j].Some? && r'.nexthops[j].value.gw == hop.gw && r'.nexthops[j].value.oif == hop.oif)
        || (r' == r && forall j | 0 <= j < |r.nexthops| :: r.nexthops[j].Some?)
      ensures forall j | 0 <= j < |r.nexthops| && r.nexthops[j].Some? :: r.nexthops[j] in r'.nexthops
      ensures forall j | 0 <= j < |r'.nexthops| && r'.nexthops[j].Some? ::
        r'.nexthops[j] in r.nexthops || r'.nexthops[j] == Some(hop)
    {
      hide ApplyMask, HopsDiffer, Inserted;
      var a, b := r.nexthops, r'.nexthops;
      if !HasHop(a, hop.gw, hop.oif) && a[MAX_NXT_HOPS - 1] == None {
        var p: nat :| Inserted(a, hop, b, p);
        InsertedHops(a, hop, b, p);
        assert b[p].value.gw == hop.gw && b[p].value.oif == hop.oif && p < |b|;
      }
    }

    /** The next hop rt_table_add_route makes of it; its ifindex is not set, so all of them have index 0. */
    static function Hop(g: Option<Gateway>): (hop: Option<NextHop>)
      ensures hop.None? <==> g.None?
      ensures hop.Some? ==> hop.value == NextHop(g.value.gw, g.value.oif, 0)
    {
      if g.None? then None else Some(NextHop(g.value.gw, g.value.oif, 0))
    }

    static lemma FirstHop(a: seq<Option<NextHop>>, hop: NextHop, b: seq<Option<NextHop>>)
      requires a == [None, None, None, None] && exists p :: Inserted(a, hop, b, p)
      ensures b == [Some(hop), None, None, None]
    {
      var p :| Inserted(a, hop, b, p);
      assert a[0] == None;
      assert p == 0;
    }

    static method NewRoute(prefix: nat, mask: nat, hop: Option<NextHop>, metric: nat) returns (route: Route)
      requires mask <= 32 && IsAddr(prefix) && ApplyMask(prefix, mask) == prefix
      ensures RouteOk(route) && route.dest == prefix && route.mask == mask && route.isDirect == hop.None?
      ensures route.nexthops == [hop, None, None, None]
      ensures route.metric == if hop.None? then 0 else metric
    {
      hide ApplyMask;
      route := Route(prefix, mask, hop.None?, [None, None, None, None], if hop.Some? then metric else 0);
      if hop.Some? {
        var ok, hops := InsertNexthop(route.nexthops, hop.value);
        FirstHop(route.nexthops, hop.value, hops);
        route := route.(nexthops := hops);
      }
    }

    /** The loop that looks for the next hop; it ends at the first place not in use. */
    static method FindHop(a: seq<Option<NextHop>>, gw: nat, oif: nat) returns (i: nat, found: bool)
      requires HopsOk(a)
      ensures found <==> HasHop(a, gw, oif)
      ensures i <= |a| && (!found ==> (i == |a| <==> a[|a| - 1].Some?))
    {
      i, found := 0, false;
      while i < |a| && a[i].Some?
        invariant i <= |a| && (0 < i ==> a[i - 1].Some?)
        invariant forall j | 0 <= j < i :: a[j].value.gw != gw || a[j].value.oif != oif
      {
        if a[i].value.gw == gw && a[i].value.oif == oif {
          return i, true;
        }
        i := i + 1;
      }
    }

    static method ExtendRoute(route: Route, hop: NextHop, metric: nat) returns (r: Route)
      requires RouteOk(route)
      ensures RouteOk(r) && SameKey(route, r) && Extended(route, r, hop, metric)
    {
      hide ApplyMask;
      var i, found := FindHop(route.nexthops, hop.gw, hop.oif);
      if found || i == MAX_NXT_HOPS {
        return route;
      }
      var ok, hops := InsertNexthop(route.nexthops, hop);
      r := route.(nexthops := hops, isDirect := false, metric := metric);
      ExtendedHops(route, r, hop, metric);
    }

    /** rt_table_add_route: a route to `dst` under the mask, by a gateway and interface or, with none, a
        direct one.  The original takes a second direct route for a prefix only while it has no next hop. */
    method AddRoute(dst: nat, mask: nat, gateway: Option<Gateway>, metric: nat)
      requires TableOk(routes) && IsAddr(dst) && mask <= 32
      requires gateway == None ==> forall i | 0 <= i < |routes| && routes[i].dest == ApplyMask(dst, mask)
        && routes[i].mask == mask :: routes[i].nexthops[0] == None
      modifies `routes
      ensures TableOk(routes)
      ensures (forall i | 0 <= i < |old(routes)| ::
        !(old(routes)[i].dest == ApplyMask(dst, mask) && old(routes)[i].mask == mask)) ==>
        && |routes| == |old(routes)| + 1 && routes[1..] == old(routes)
        && routes[0].dest == ApplyMask(dst, mask) && routes[0].mask == mask && routes[0].isDirect == gateway.None?
        && routes[0].nexthops == [Hop(gateway), None, None, None]
        && routes[0].metric == (if gateway.None? then 0 else metric)
      ensures forall i | 0 <= i < |old(routes)| && old(routes)[i].dest == ApplyMask(dst, mask)
        && old(routes)[i].mask == mask ::
        && |routes| == |old(routes)| && routes == old(routes)[i := routes[i]]
        && if gateway.None? then routes[i] == old(routes)[i]
           else Extended(old(routes)[i], routes[i], Hop(gateway).value, metric)
    {
      var hop := Hop(gateway);
      var prefix := ApplyMask(dst, mask);
      MaskedIsMasked(dst, mask);
      hide ApplyMask;
      var k := Lookup(prefix, mask);
      if k < 0 {
        var route := NewRoute(prefix, mask, hop, metric);
        routes := [route] + routes;
        return;
      }
      if hop.None? {
        return;
      }
      var route := ExtendRoute(routes[k], hop.value, metric);
      routes := routes[k := route];
    }
  }
}
