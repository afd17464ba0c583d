/** Addresses in dotted decimal notation, as inet_ntop writes them, and what it means for one such text
    to begin another. */
module AddressText {
  function Digit(d: nat): char
    requires d < 10
  {
    (d + 48) as char
  }

  function Decimal(n: nat): string
  {
    if n < 10 then [Digit(n)] else Decimal(n / 10) + [Digit(n % 10)]
  }

  function LastTwo(a: nat): string
  {
    Decimal(a / 256 % 256) + ['.'] + Decimal(a % 256)
  }

  /** The text without its first number, and the whole. */
  function LastThree(a: nat): string
  {
    Decimal(a / 256 / 256 % 256) + ['.'] + LastTwo(a)
  }

  function Text(a: nat): string
  {
    Decimal(a / 256 / 256 / 256) + ['.'] + LastThree(a)
  }

  /** The digits of m come first in those of d, with more to follow; both are below 256. */
  predicate LeadingDigits(m: nat, d: nat)
  {
    (d >= 10 && m == d / 10) || (d >= 100 && m == d / 100)
  }

  lemma {:induction false} NoDots(n: nat, i: nat)
    requires i < |Decimal(n)|
    ensures '0' <= Decimal(n)[i] <= '9'
  {
    if n >= 10 && i < |Decimal(n / 10)| {
      NoDots(n / 10, i);
    }
  }

  /** The number that a text of digits denotes, most significant digit first. */
  function Number(s: string): int
  {
    if s == [] then 0 else 10 * Number(s[..|s| - 1]) + (s[|s| - 1] as int - '0' as int)
  }

  lemma {:induction false} DecimalReads(n: nat)
    ensures Number(Decimal(n)) == n
  {
    if n >= 10 {
      DecimalReads(n / 10);
      assert Decimal(n)[..|Decimal(n)| - 1] == Decimal(n / 10);
    } else {
      assert Decimal(n)[..0] == [];
    }
  }

  lemma Octet(a: nat, z: nat)
    requires z < 256
    ensures (a * 256 + z) / 256 == a && (a * 256 + z) % 256 == z
  {
  }

  function Dotted(s: string, t: string): string
  {
    s + ['.'] + t
  }

  lemma TextByParts(a: nat, u: nat, v: nat, w: nat, x: nat, y: nat, z: nat)
    requires a / 256 == u && a % 256 == z && u / 256 == v && u % 256 == y && v / 256 == w && v % 256 == x
    ensures Text(a) == Dotted(Decimal(w), Dotted(Decimal(x), Dotted(Decimal(y), Decimal(z))))
  {
    hide Decimal;
  }

  /** Four numbers with dots between them, the most significant first. */
  lemma TextOfOctets(w: nat, x: nat, y: nat, z: nat)
    requires w < 256 && x < 256 && y < 256 && z < 256
    ensures Text(((w * 256 + x) * 256 + y) * 256 + z) ==
      Dotted(Decimal(w), Dotted(Decimal(x), Dotted(Decimal(y), Decimal(z))))
  {
    hide *;
    var v := w * 256 + x;
    var u := v * 256 + y;
    Octet(w, x);
    Octet(v, y);
    Octet(u, z);
    TextByParts(u * 256 + z, u, v, w, x, y, z);
  }

  lemma NotEmpty(n: nat)
    ensures Decimal(n) != []
  {
  }

  lemma {:induction false} DecimalSame(m: nat, n: nat)
    ensures Decimal(m) == Decimal(n) <==> m == n
  {
    if Decimal(m) == Decimal(n) {
      NotEmpty(m / 10);
      NotEmpty(n / 10);
      assert Decimal(m)[|Decimal(m)| - 1] == Digit(m % 10) && Decimal(n)[|Decimal(n)| - 1] == Digit(n % 10);
      if m >= 10 && n >= 10 {
        assert Decimal(m / 10) == Decimal(m)[..|Decimal(m)| - 1] == Decimal(n / 10);
        DecimalSame(m / 10, n / 10);
      }
    }
  }

  /** One number's digits begin another's if it is that number with some of its last digits dropped. */
  lemma DecimalPrefix(m: nat, d: nat)
    ensures Decimal(m) <= Decimal(d) <==> m == d || (d >= 10 && Decimal(m) <= Decimal(d / 10))
  {
    DecimalSame(m, d);
    if d >= 10 {
      var p, q := Decimal(m), Decimal(d);
      assert q == Decimal(d / 10) + [Digit(d % 10)];
      if p <= q && p != q {
        assert p == q[..|p|] == Decimal(d / 10)[..|p|];
      }
    } else {
      NotEmpty(m);
    }
  }

  lemma OctetPrefix(m: nat, d: nat)
    requires d < 256
    ensures Decimal(m) <= Decimal(d) <==> m == d || LeadingDigits(m, d)
  {
    DecimalPrefix(m, d);
    DecimalPrefix(m, d / 10);
    DecimalPrefix(m, d / 100);
  }

  /** Up to the first dot the two texts must agree. */
  lemma DottedPrefix(x: nat, y: nat, s: string, t: string)
    ensures Decimal(x) + ['.'] + s <= Decimal(y) + ['.'] + t <==> x == y && s <= t
  {
    var p, q := Decimal(x), Decimal(y);
    var a, b := p + ['.'] + s, q + ['.'] + t;
    DecimalSame(x, y);
    if a <= b {
      assert a[|p|] == '.' == b[|p|];
      if |p| < |q| {
        NoDots(y, |p|);
      } else if |q| < |p| {
        NoDots(x, |q|);
      }
      assert p == a[..|p|] == b[..|p|] == q;
      assert s == a[|p| + 1..] && t == b[|p| + 1..];
    }
    if x == y && s <= t {
      assert b == a + t[|s|..];
    }
  }

  lemma SameByParts(a: nat, b: nat)
    ensures a == b <==> a / 256 == b / 256 && a % 256 == b % 256
  {
  }

  /** The text of a begins that of b exactly when the addresses are equal, or agree up to the last number
      and the digits of a's begin those of b's. */
  lemma TextPrefix(a: nat, b: nat)
    ensures Text(a) <= Text(b) <==> a == b || (a / 256 == b / 256 && LeadingDigits(a % 256, b % 256))
  {
    DottedPrefix(a / 256 / 256 / 256, b / 256 / 256 / 256, LastThree(a), LastThree(b));
    DottedPrefix(a / 256 / 256 % 256, b / 256 / 256 % 256, LastTwo(a), LastTwo(b));
    DottedPrefix(a / 256 % 256, b / 256 % 256, Decimal(a % 256), Decimal(b % 256));
    OctetPrefix(a % 256, b % 256);
    hide Decimal;
    SameByParts(a / 256 / 256, b / 256 / 256);
    SameByParts(a / 256, b / 256);
    SameByParts(a, b);
  }

  /** Different addresses have different texts. */
  lemma TextSame(a: nat, b: nat)
    ensures Text(a) == Text(b) <==> a == b
  {
    if Text(a) == Text(b) {
      TextPrefix(a, b);
      TextPrefix(b, a);
    }
  }
}
