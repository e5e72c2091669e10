/**
 IPv4 networks in CIDR notation: a 32-bit address and a prefix length. The bitwise AND with a mask of
 `prefix` leading ones is written as what it does, clearing the other bits.
 */
module Ipv4 {
  type Address = n: nat | n < 0x1_0000_0000

  datatype Block = Block(address: Address, prefix: nat)

  predicate ValidBlock(b: Block) {
    b.prefix <= 32
  }

  function Power(n: nat): (p: nat)
    ensures p > 0
  {
    if n == 0 then 1 else 2 * Power(n - 1)
  }

  /** `ip & mask`. */
  function Masked(ip: Address, prefix: nat): int
    requires prefix <= 32
  {
    ip - ip % Power(32 - prefix)
  }

  /** `ipv4_cidr_contains`. */
  predicate Contains(b: Block, ip: Address)
    requires ValidBlock(b)
  {
    Masked(b.address, b.prefix) == Masked(ip, b.prefix)
  }

  lemma CutIsMultiple(n: nat, d: nat)
    requires d > 0
    ensures n - n % d == d * (n / d)
  {
  }

  lemma SameQuotient(a: nat, b: nat, d: nat)
    requires d > 0
    ensures a - a % d == b - b % d <==> a / d == b / d
  {
    CutIsMultiple(a, d);
    CutIsMultiple(b, d);
    if d * (a / d) == d * (b / d) {
      assert a / d == b / d;
    }
  }

  /** A network holds exactly the addresses that share its first `prefix` bits (section 3.1 of RFC 4632). */
  lemma ContainsIsPrefix(b: Block, ip: Address)
    requires ValidBlock(b)
    ensures Contains(b, ip) <==> b.address / Power(32 - b.prefix) == ip / Power(32 - b.prefix)
  {
    SameQuotient(b.address, ip, Power(32 - b.prefix));
  }

  lemma HalveAgain(n: nat, d: nat)
    requires d > 0
    ensures n / (2 * d) == (n / d) / 2
  {
    var q, r := n / (2 * d), n % (2 * d);
    assert n == 2 * d * q + r;
    if r < d {
      assert n == d * (2 * q) + r;
    } else {
      assert n == d * (2 * q + 1) + (r - d);
    }
    QuotientOf(n, d, if r < d then 2 * q else 2 * q + 1, if r < d then r else r - d);
  }

  lemma MultiplesApart(d: nat, x: nat, y: nat)
    requires x < y
    ensures d * x + d <= d * y
  {
    var k := y - x - 1;
    assert y * d == x * d + d + k * d;
  }

  lemma QuotientOf(n: nat, d: nat, q: nat, r: nat)
    requires r < d && n == d * q + r
    ensures n / d == q
  {
    assert d * (n / d) + n % d == d * q + r;
    if n / d < q {
      MultiplesApart(d, n / d, q);
    } else if q < n / d {
      MultiplesApart(d, q, n / d);
    }
  }

  /** Shortening the prefix only widens the network. */
  lemma {:induction false} ShorterPrefixContains(b: Block, shorter: nat, ip: Address)
    requires ValidBlock(b) && shorter <= b.prefix && Contains(b, ip)
    ensures Contains(b.(prefix := shorter), ip)
    decreases b.prefix
  {
    if shorter < b.prefix {
      var wider := b.(prefix := b.prefix - 1);
      var d := Power(32 - b.prefix);
      ContainsIsPrefix(b, ip);
      ContainsIsPrefix(wider, ip);
      HalveAgain(b.address, d);
      HalveAgain(ip, d);
      assert Power(32 - wider.prefix) == 2 * d;
      ShorterPrefixContains(wider, shorter, ip);
    }
  }

  /** A prefix of 32 bits is a single address, one of none is every address, and one of 24 bits leaves the last
      byte open. */
  lemma KnownPrefixes(b: Block, ip: Address)
    ensures b.prefix == 32 ==> (Contains(b, ip) <==> b.address == ip)
    ensures b.prefix == 0 ==> Contains(b, ip)
    ensures b.prefix == 24 ==> (Contains(b, ip) <==> b.address / 256 == ip / 256)
    ensures b.prefix > 32 ==> !ValidBlock(b)
  {
    assert Power(0) == 1 && Power(8) == 256;
    if b.prefix == 0 {
      WholeRange();
      ContainsIsPrefix(b, ip);
    } else if b.prefix == 24 || b.prefix == 32 {
      ContainsIsPrefix(b, ip);
    }
  }

  lemma WholeRange()
    ensures Power(32) == 0x1_0000_0000
  {
    assert Power(8) == 256;
    assert Power(16) == 65536;
    assert Power(24) == 16777216;
  }
}
