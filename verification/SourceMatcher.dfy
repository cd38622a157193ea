/**
 Address prefixes: the byte-and-mask test of the SDK against the meaning of a prefix on
 integers, and the SDK's verdict against the collector's for the same list of networks.
 Addresses are their network-order bytes, 4 or 16 of them.
 */
module SourceMatcher {
  import opened Common

  newtype octet = x: int | 0 <= x < 256

  type octets = seq<octet>

  function Pow2(n: nat): (p: nat)
    ensures p >= 1
  {
    if n == 0 then 1 else 2 * Pow2(n - 1)
  }

  /** The address as one unsigned integer. */
  function Value(a: octets): nat {
    if a == [] then 0 else (a[0] as int) * Pow2(8 * (|a| - 1)) + Value(a[1..])
  }

  /** Its leading `bits` bits. */
  function Leading(a: octets, bits: nat): int
    requires bits <= 8 * |a|
  {
    Divide(Value(a), Pow2(8 * |a| - bits))
  }

  function Divide(n: nat, d: nat): int
    requires d >= 1
  {
    n / d
  }

  /** Section 3.1 of RFC 4632: same family, same leading bits. */
  predicate InPrefix(candidate: octets, network: octets, bits: nat)
    requires bits <= 8 * |network|
  {
    |candidate| == |network| && Leading(candidate, bits) == Leading(network, bits)
  }

  /** `x & y` on non-negative integers: bit by bit. */
  function And(x: nat, y: nat): nat {
    if x == 0 || y == 0 then 0
    else 2 * And(x / 2, y / 2) + (if x % 2 == 1 && y % 2 == 1 then 1 else 0)
  }

  /** `x << n`, one place at a time. */
  function Left(x: nat, n: nat): nat { if n == 0 then x else 2 * Left(x, n - 1) }

  function Masked(b: octet, keep: nat): nat
    requires 1 <= keep <= 7
  {
    And(b as int, Left(0xFF, 8 - keep))
  }

  /** The test as written: whole bytes, then one byte under a mask. */
  predicate SameBytes(candidate: octets, network: octets, bits: nat)
    requires bits <= 8 * |network|
  {
    && |candidate| == |network|
    && candidate[..bits / 8] == network[..bits / 8]
    && (bits % 8 != 0 ==> Masked(candidate[bits / 8], bits % 8) == Masked(network[bits / 8], bits % 8))
  }

  method Contains(network: octets, bits: nat, candidate: octets) returns (inside: bool)
    requires bits <= 8 * |network|
    ensures inside <==> InPrefix(candidate, network, bits)
  {
    if |candidate| != |network| { return false; }
    SameBytesIsPrefix(candidate, network, bits);
    var wholeBytes := bits / 8;
    for i := 0 to wholeBytes
      invariant candidate[..i] == network[..i]
    {
      if candidate[i] != network[i] {
        assert candidate[..wholeBytes][i] != network[..wholeBytes][i];
        return false;
      }
    }
    var remainder := bits % 8;
    if remainder == 0 { return true; }
    inside := Masked(candidate[wholeBytes], remainder) == Masked(network[wholeBytes], remainder);
  }

  // ---------------------------------------------------------------- bits and numbers

  /** A mask one place further left masks the half and doubles the result. */
  lemma AndDoubles(x: nat, m: nat)
    ensures And(x, 2 * m) == 2 * And(x / 2, m)
  {}

  // `x >> n`, one place at a time.
  function Right(x: nat, n: nat): (y: nat)
    ensures y <= x
  {
    if n == 0 then x else Right(x / 2, n - 1)
  }

  lemma {:induction false} RightIsDivision(x: nat, n: nat)
    ensures Right(x, n) == x / Pow2(n)
    decreases n
  {
    if n > 0 {
      RightIsDivision(x / 2, n - 1);
      DivTwice(x, 2, Pow2(n - 1));
    }
  }

  lemma {:induction false} AndLeft(x: nat, m: nat, n: nat)
    ensures And(x, Left(m, n)) == Left(And(Right(x, n), m), n)
    decreases n
  {
    if n > 0 {
      AndDoubles(x, Left(m, n - 1));
      AndLeft(x / 2, m, n - 1);
    }
  }

  function Ones(n: nat): nat { if n == 0 then 0 else 2 * Ones(n - 1) + 1 }

  lemma AndOdd(x: nat, m: nat)
    ensures And(x, 2 * m + 1) == 2 * And(x / 2, m) + x % 2
  {
    if x > 0 { assert (2 * m + 1) / 2 == m && (2 * m + 1) % 2 == 1; }
  }

  /** A mask of ones keeps a number that is no longer than it. */
  lemma {:induction false} AndOnes(x: nat, n: nat)
    requires x <= Ones(n)
    ensures And(x, Ones(n)) == x
    decreases n
  {
    if n > 0 {
      AndOdd(x, Ones(n - 1));
      AndOnes(x / 2, n - 1);
    }
  }

  lemma EightOnes()
    ensures Ones(8) == 0xFF
  {
    assert Ones(4) == 15;
    assert Ones(6) == 2 * (2 * Ones(4) + 1) + 1;
    assert Ones(8) == 2 * (2 * Ones(6) + 1) + 1;
  }

  lemma {:induction false} LeftIsInjective(x: nat, y: nat, n: nat)
    ensures Left(x, n) == Left(y, n) <==> x == y
  {
    if n > 0 { LeftIsInjective(x, y, n - 1); }
  }

  lemma ByteWeight()
    ensures Pow2(8) == 256
  {
    assert Pow2(4) == 16;
    PowSum(4, 4);
  }

  lemma MaskedShift(c: octet, n: nat)
    ensures And(c as int, Left(0xFF, n)) == Left(Right(c as int, n), n)
  {
    AndLeft(c as int, 0xFF, n);
    EightOnes();
    AndOnes(Right(c as int, n), 8);
  }

  /** Keeping the first bits of a byte under the mask is dividing it. */
  lemma MaskIsDivision(c: octet, d: octet, keep: nat)
    requires 1 <= keep <= 7
    ensures Masked(c, keep) == Masked(d, keep) <==> (c as int) / Pow2(8 - keep) == (d as int) / Pow2(8 - keep)
  {
    var n := 8 - keep;
    MaskedShift(c, n);
    MaskedShift(d, n);
    LeftIsInjective(Right(c as int, n), Right(d as int, n), n);
    RightIsDivision(c as int, n);
    RightIsDivision(d as int, n);
  }

  lemma {:induction false} PowSum(a: nat, b: nat)
    ensures Pow2(a + b) == Pow2(a) * Pow2(b)
  {
    if a > 0 { PowSum(a - 1, b); }
  }

  lemma {:induction false} MulNonNegative(a: nat, b: nat)
    ensures a * b >= 0
  {
    if a > 0 {
      MulNonNegative(a - 1, b);
      assert a * b == (a - 1) * b + b;
    }
  }

  lemma MulMonotone(a: int, b: int, p: nat)
    requires a <= b
    ensures a * p <= b * p
  {
    MulNonNegative(b - a, p);
    assert (b - a) * p == b * p - a * p;
  }

  lemma MulSign(e: int, d: int)
    requires d >= 1
    ensures e >= 0 ==> e * d >= 0
    ensures e >= 1 ==> e * d >= d
    ensures e <= -1 ==> e * d <= 0 - d
  {
    if e >= 1 { MulMonotone(1, e, d); }
    if e <= -1 { MulMonotone(e, -1, d); }
    if e >= 0 { MulNonNegative(e, d); }
  }

  lemma {:induction false} ValueBound(a: octets)
    ensures Value(a) < Pow2(8 * |a|)
  {
    if a != [] {
      ValueBound(a[1..]);
      PowSum(8, 8 * (|a| - 1));
      ByteWeight();
      ByteBelow((a[0] as int), Pow2(8 * (|a| - 1)), Value(a[1..]));
    }
  }

  lemma ByteBelow(x: int, p: int, rest: int)
    requires 0 <= x <= 255 && 0 <= rest < p
    ensures x * p + rest < 256 * p
  {
    MulSign(255 - x, p);
    assert (255 - x) * p == 255 * p - x * p;
  }

  lemma DivUnique(n: int, d: int, q: int, r: int)
    requires d >= 1 && n == q * d + r && 0 <= r < d
    ensures n / d == q
  {
    var k := n / d;
    assert n == k * d + n % d;
    assert (k - q) * d == k * d - q * d;
    MulSign(k - q, d);
  }

  /** Division by a part of the weight splits the number in two independent ones. */
  lemma DivSplit(x: int, high: int, low: int, rest: int)
    requires high >= 1 && low >= 1 && rest >= 0 && x >= 0
    ensures (x * (high * low) + rest) / low == x * high + rest / low
  {
    var q, r := rest / low, rest % low;
    assert x * (high * low) == (x * high) * low;
    assert (x * high + q) * low == (x * high) * low + q * low;
    DivUnique(x * (high * low) + rest, low, x * high + q, r);
  }

  /** Two numbers written as a digit and a smaller rest agree when both parts do. */
  lemma DigitsAgree(x: int, y: int, p: int, u: int, v: int)
    requires 0 <= u < p && 0 <= v < p
    ensures x * p + u == y * p + v <==> x == y && u == v
  {
    if x * p + u == y * p + v {
      DivUnique(x * p + u, p, x, u);
      DivUnique(y * p + v, p, y, v);
    }
  }

  lemma QuotientBelow(v: int, high: int, low: int)
    requires low >= 1 && 0 <= v < high * low
    ensures 0 <= v / low < high
  {
    var q := v / low;
    assert v == q * low + v % low;
    assert (q - high) * low == q * low - high * low;
    MulSign(q - high, low);
    MulSign(q, low);
  }

  lemma RestBelow(a: octets, bits: nat)
    requires bits <= 8 * |a|
    ensures 0 <= Leading(a, bits) < Pow2(bits)
  {
    ValueBound(a);
    PowSum(bits, 8 * |a| - bits);
    QuotientBelow(Value(a), Pow2(bits), Pow2(8 * |a| - bits));
  }

  /** More than a byte of prefix: the first byte stands before the rest of the prefix. */
  lemma LeadingSplits(a: octets, bits: nat)
    requires |a| >= 1 && 8 <= bits <= 8 * |a|
    ensures Leading(a, bits) == (a[0] as int) * Pow2(bits - 8) + Leading(a[1..], bits - 8)
  {
    var low, high := Pow2(8 * |a| - bits), Pow2(bits - 8);
    PowSum(bits - 8, 8 * |a| - bits);
    assert (bits - 8) + (8 * |a| - bits) == 8 * (|a| - 1);
    DivSplit((a[0] as int), high, low, Value(a[1..]));
    assert 8 * |a[1..]| - (bits - 8) == 8 * |a| - bits;
  }

  lemma LeadingByByte(a: octets, b: octets, bits: nat)
    requires |a| == |b| >= 1 && 8 <= bits <= 8 * |a|
    ensures Leading(a, bits) == Leading(b, bits)
            <==> a[0] == b[0] && Leading(a[1..], bits - 8) == Leading(b[1..], bits - 8)
  {
    LeadingSplits(a, bits);
    LeadingSplits(b, bits);
    RestBelow(a[1..], bits - 8);
    RestBelow(b[1..], bits - 8);
    DigitsAgree((a[0] as int), (b[0] as int), Pow2(bits - 8), Leading(a[1..], bits - 8), Leading(b[1..], bits - 8));
  }

  lemma Remainders(r: int, cut: int, p: int, rest: int)
    requires 0 <= r < cut && 0 <= rest < p
    ensures 0 <= r * p + rest < cut * p
  {
    MulNonNegative(r, p);
    MulMonotone(r + 1, cut, p);
    assert (r + 1) * p == r * p + p;
  }

  lemma ByteQuotient(x: int, cut: int, p: int, rest: int)
    requires x >= 0 && cut >= 1 && 0 <= rest < p
    ensures cut * p >= 1 && (x * p + rest) / (cut * p) == x / cut
  {
    var q, r := x / cut, x % cut;
    assert x == q * cut + r;
    assert x * p == q * (cut * p) + r * p;
    Remainders(r, cut, p, rest);
    DivUnique(x * p + rest, cut * p, q, r * p + rest);
  }

  /** Less than a byte of prefix: the leading bits of the first byte. */
  lemma LeadingOfByte(a: octets, bits: nat)
    requires |a| >= 1 && 1 <= bits < 8
    ensures Leading(a, bits) == (a[0] as int) / Pow2(8 - bits)
  {
    PowSum(8 - bits, 8 * (|a| - 1));
    assert 8 * |a| - bits == (8 - bits) + 8 * (|a| - 1);
    ValueBound(a[1..]);
    ByteQuotient((a[0] as int), Pow2(8 - bits), Pow2(8 * (|a| - 1)), Value(a[1..]));
  }

  /** The byte-and-mask test is equality of the leading bits, for every pair of addresses
      and every prefix length. */
  lemma {:induction false} SameBytesIsPrefix(a: octets, b: octets, bits: nat)
    requires |a| == |b| && bits <= 8 * |b|
    ensures SameBytes(a, b, bits) <==> InPrefix(a, b, bits)
    decreases |a|
  {
    if bits >= 8 {
      SameBytesIsPrefix(a[1..], b[1..], bits - 8);
      LeadingByByte(a, b, bits);
      SameBytesByByte(a, b, bits);
    } else {
      ShortPrefix(a, b, bits);
    }
  }

  lemma ShortPrefix(a: octets, b: octets, bits: nat)
    requires |a| == |b| && bits < 8 && bits <= 8 * |b|
    ensures SameBytes(a, b, bits) <==> InPrefix(a, b, bits)
  {
    assert a[..0] == b[..0];
    if bits == 0 {
      RestBelow(a, 0);
      RestBelow(b, 0);
    } else {
      MaskIsDivision(a[0], b[0], bits);
      LeadingOfByte(a, bits);
      LeadingOfByte(b, bits);
    }
  }

  lemma SameBytesByByte(a: octets, b: octets, bits: nat)
    requires |a| == |b| && 8 <= bits <= 8 * |b|
    ensures SameBytes(a, b, bits) <==> a[0] == b[0] && SameBytes(a[1..], b[1..], bits - 8)
  {
    var w := bits / 8;
    assert (bits - 8) / 8 == w - 1 && (bits - 8) % 8 == bits % 8;
    FirstByte(a, b, w);
    if bits % 8 != 0 { assert a[1..][w - 1] == a[w] && b[1..][w - 1] == b[w]; }
  }

  lemma FirstByte(a: octets, b: octets, w: nat)
    requires 1 <= w <= |a| == |b|
    ensures a[..w] == b[..w] <==> a[0] == b[0] && a[1..][..w - 1] == b[1..][..w - 1]
  {
    assert a[..w] == [a[0]] + a[1..][..w - 1];
    assert b[..w] == [b[0]] + b[1..][..w - 1];
  }

  /** A longer prefix is a smaller network. */
  lemma LongerImpliesShorter(a: octets, b: octets, longer: nat, shorter: nat)
    requires shorter <= longer <= 8 * |b| && InPrefix(a, b, longer)
    ensures InPrefix(a, b, shorter)
  {
    SameBytesIsPrefix(a, b, longer);
    SameBytesIsPrefix(a, b, shorter);
    var w, v := longer / 8, shorter / 8;
    assert a[..v] == a[..w][..v] && b[..v] == b[..w][..v];
    if shorter % 8 != 0 {
      if v < w {
        assert a[v] == a[..w][v] && b[v] == b[..w][v];
      } else {
        CoarserMask(a[v], b[v], longer % 8, shorter % 8);
      }
    }
  }

  lemma CoarserMask(c: octet, d: octet, longer: nat, shorter: nat)
    requires 1 <= shorter <= longer <= 7 && Masked(c, longer) == Masked(d, longer)
    ensures Masked(c, shorter) == Masked(d, shorter)
  {
    MaskIsDivision(c, d, longer);
    MaskIsDivision(c, d, shorter);
    Coarser(c as int, d as int, 8 - longer, 8 - shorter);
  }

  lemma Coarser(x: nat, y: nat, m: nat, n: nat)
    requires m <= n && x / Pow2(m) == y / Pow2(m)
    ensures x / Pow2(n) == y / Pow2(n)
  {
    PowSum(n - m, m);
    DivTwice(x, Pow2(m), Pow2(n - m));
    DivTwice(y, Pow2(m), Pow2(n - m));
  }

  lemma DivTwice(x: int, a: int, b: int)
    requires a >= 1 && b >= 1 && x >= 0
    ensures b * a >= 1 && x / (b * a) == x / a / b
  {
    var q, r := x / a, x % a;
    var s, t := q / b, q % b;
    assert x == q * a + r && q == s * b + t;
    assert q * a == s * (b * a) + t * a;
    Remainders(t, b, a, r);
    DivUnique(x, b * a, s, t * a + r);
  }

  // ------------------------------------------------------------- the two verdicts

  /** Section 2.5.5.2 of RFC 4291: an IPv4 address inside an IPv6 one. */
  predicate Mapped(a: octets) {
    |a| == 16 && (forall i :: 0 <= i < 10 ==> a[i] == 0) && a[10] == 0xFF && a[11] == 0xFF
  }

  function Fold(a: octets): octets { if Mapped(a) then a[12..] else a }

  // An entry of the configured list, as far as it could be read.
  datatype Suffix = Absent | NotANumber | Bits(n: int)

  datatype Cidr = Unreadable | Cidr(address: octets, suffix: Suffix)

  datatype Prefix = Prefix(network: octets, bits: nat)

  predicate IsPrefix(p: Prefix) { p.bits <= 8 * |p.network| }

  predicate Holds(p: Prefix, a: octets) { IsPrefix(p) && InPrefix(a, p.network, p.bits) }

  /** The prefix an entry stands for, given the address it names; None when it is skipped. */
  function PrefixOf(address: octets, suffix: Suffix): (p: Option<Prefix>)
    ensures p.Some? ==> IsPrefix(p.value)
  {
    match suffix
    case Absent => Some(Prefix(address, 8 * |address|))
    case NotANumber => None
    case Bits(n) => if 0 <= n <= 8 * |address| then Some(Prefix(address, n)) else None
  }

  function SdkPrefix(c: Cidr): (p: Option<Prefix>)
    ensures p.Some? ==> IsPrefix(p.value)
  {
    if c.Unreadable? then None else PrefixOf(Fold(c.address), c.suffix)
  }

  function CollectorPrefix(c: Cidr): (p: Option<Prefix>)
    ensures p.Some? ==> IsPrefix(p.value)
  {
    if c.Unreadable? then None else PrefixOf(c.address, c.suffix)
  }

  /** The collector's test: some network of the list holds the address as it is. */
  predicate CollectorMatches(cidrs: seq<Cidr>, a: octets) {
    exists i :: 0 <= i < |cidrs| && CollectorPrefix(cidrs[i]).Some? && Holds(CollectorPrefix(cidrs[i]).value, a)
  }

  predicate SdkMatches(cidrs: seq<Cidr>, a: octets) {
    exists i :: 0 <= i < |cidrs| && SdkPrefix(cidrs[i]).Some? && Holds(SdkPrefix(cidrs[i]).value, Fold(a))
  }

  /** Compile the list: entries that cannot be read are skipped. */
  function Compiled(cidrs: seq<Cidr>): (ps: seq<Prefix>)
    ensures forall p :: p in ps ==> IsPrefix(p)
  {
    if cidrs == [] then []
    else
      var last := SdkPrefix(cidrs[|cidrs| - 1]);
      Compiled(cidrs[..|cidrs| - 1]) + (if last.Some? then [last.value] else [])
  }

  method Compile(cidrs: seq<Cidr>) returns (compiled: seq<Prefix>)
    ensures compiled == Compiled(cidrs)
  {
    compiled := [];
    for i := 0 to |cidrs|
      invariant compiled == Compiled(cidrs[..i])
    {
      assert cidrs[..i + 1][..i] == cidrs[..i];
      var entry := cidrs[i];
      if entry.Unreadable? { continue; }
      var bytes := Fold(entry.address);
      var full := |bytes| * 8;
      var bits: int := full;
      match entry.suffix {
        case Absent =>
        case NotANumber => continue;
        case Bits(n) =>
          bits := n;
          if bits < 0 || bits > full { continue; }
      }
      compiled := compiled + [Prefix(bytes, bits)];
    }
    assert cidrs[..|cidrs|] == cidrs;
  }

  lemma {:induction false} CompiledIs(cidrs: seq<Cidr>)
    ensures forall p :: p in Compiled(cidrs) <==> exists i :: 0 <= i < |cidrs| && SdkPrefix(cidrs[i]) == Some(p)
  {
    if cidrs != [] {
      var init, last := cidrs[..|cidrs| - 1], cidrs[|cidrs| - 1];
      CompiledIs(init);
      forall p
        ensures p in Compiled(cidrs) <==> exists i :: 0 <= i < |cidrs| && SdkPrefix(cidrs[i]) == Some(p)
      {
        if p in Compiled(init) {
          var i :| 0 <= i < |init| && SdkPrefix(init[i]) == Some(p);
          assert SdkPrefix(cidrs[i]) == Some(p);
        } else if SdkPrefix(last) == Some(p) {
          assert SdkPrefix(cidrs[|cidrs| - 1]) == Some(p);
        } else {
          forall i | 0 <= i < |cidrs| ensures SdkPrefix(cidrs[i]) != Some(p) {
            if i < |init| { assert init[i] == cidrs[i]; }
          }
        }
      }
    }
  }

  /** The SDK's verdict over a compiled list. */
  method Matches(cidrs: seq<Cidr>, address: Option<octets>) returns (inside: bool)
    ensures inside <==> address.Some? && SdkMatches(cidrs, address.value)
  {
    var prefixes := Compile(cidrs);
    CompiledIs(cidrs);
    if address.None? { return false; }
    if |prefixes| == 0 {
      NoneCompiled(cidrs, prefixes, address.value);
      return false;
    }
    var candidate := Fold(address.value);
    for i := 0 to |prefixes|
      invariant forall j :: 0 <= j < i ==> !Holds(prefixes[j], candidate)
    {
      assert prefixes[i] in prefixes;
      var hit := Contains(prefixes[i].network, prefixes[i].bits, candidate);
      if hit {
        var k :| 0 <= k < |cidrs| && SdkPrefix(cidrs[k]) == Some(prefixes[i]);
        return true;
      }
    }
    NoneCompiled(cidrs, prefixes, address.value);
    inside := false;
  }

  lemma NoneCompiled(cidrs: seq<Cidr>, prefixes: seq<Prefix>, a: octets)
    requires prefixes == Compiled(cidrs)
    requires forall j :: 0 <= j < |prefixes| ==> !Holds(prefixes[j], Fold(a))
    ensures !SdkMatches(cidrs, a)
  {
    CompiledIs(cidrs);
    forall i | 0 <= i < |cidrs| && SdkPrefix(cidrs[i]).Some?
      ensures !Holds(SdkPrefix(cidrs[i]).value, Fold(a))
    {
      assert SdkPrefix(cidrs[i]).value in prefixes;
      var j :| 0 <= j < |prefixes| && prefixes[j] == SdkPrefix(cidrs[i]).value;
    }
  }

  predicate NoMappedNetworks(cidrs: seq<Cidr>) {
    forall i :: 0 <= i < |cidrs| && cidrs[i].Cidr? ==> !Mapped(cidrs[i].address)
  }

  /** The list with its mapped networks folded as well. */
  function FoldedList(cidrs: seq<Cidr>): (r: seq<Cidr>)
    ensures |r| == |cidrs|
    ensures forall i :: 0 <= i < |r| ==> CollectorPrefix(r[i]) == SdkPrefix(cidrs[i])
  {
    seq(|cidrs|, i requires 0 <= i < |cidrs| =>
      if cidrs[i].Cidr? then cidrs[i].(address := Fold(cidrs[i].address)) else cidrs[i])
  }

  /** The SDK's verdict is the collector's once both the peer and the list are folded. */
  lemma SdkIsCollectorFolded(cidrs: seq<Cidr>, a: octets)
    ensures SdkMatches(cidrs, a) <==> CollectorMatches(FoldedList(cidrs), Fold(a))
  {
    var r := FoldedList(cidrs);
    if SdkMatches(cidrs, a) {
      var i :| 0 <= i < |cidrs| && SdkPrefix(cidrs[i]).Some? && Holds(SdkPrefix(cidrs[i]).value, Fold(a));
      assert CollectorPrefix(r[i]).Some?;
    }
    if CollectorMatches(r, Fold(a)) {
      var i :| 0 <= i < |r| && CollectorPrefix(r[i]).Some? && Holds(CollectorPrefix(r[i]).value, Fold(a));
      assert SdkPrefix(cidrs[i]).Some?;
    }
  }

  /** Folding the list changes nothing exactly when no network of it is mapped. */
  lemma FoldedListIsSameIff(cidrs: seq<Cidr>)
    ensures FoldedList(cidrs) == cidrs <==> NoMappedNetworks(cidrs)
  {
    var r := FoldedList(cidrs);
    if r == cidrs {
      forall i | 0 <= i < |cidrs| && cidrs[i].Cidr? ensures !Mapped(cidrs[i].address) {
        assert r[i].address == Fold(cidrs[i].address);
      }
    }
  }

  /** With a mapped network in the list the two disagree even on a plain IPv4 peer. */
  lemma MappedNetworkSplits(a: octets)
    requires |a| == 4
    ensures var cidrs := [Cidr([0, 0, 0, 0, 0, 0, 0, 0, 0, 0, 0xFF, 0xFF] + a, Absent)];
            SdkMatches(cidrs, a) && !CollectorMatches(cidrs, a)
  {
    var cidrs := [Cidr([0, 0, 0, 0, 0, 0, 0, 0, 0, 0, 0xFF, 0xFF] + a, Absent)];
    assert Fold(cidrs[0].address) == a;
    assert SdkPrefix(cidrs[0]) == Some(Prefix(a, 32)) && Holds(Prefix(a, 32), Fold(a));
  }

  const MAPPED_LEAD: octets := [0, 0, 0, 0, 0, 0, 0, 0, 0, 0, 0xFF, 0xFF]

  /** The mapped form of 0.0.0.0. */
  const MAPPED_ZERO: octets := MAPPED_LEAD + [0, 0, 0, 0]

  lemma MappedIsLead(a: octets)
    requires |a| == 16
    ensures Mapped(a) <==> a[..12] == MAPPED_LEAD
  {
    if Mapped(a) {
      forall i | 0 <= i < 12 ensures a[i] == MAPPED_LEAD[i] {}
      assert a[..12] == MAPPED_LEAD;
    }
    if a[..12] == MAPPED_LEAD {
      forall i | 0 <= i < 12 ensures a[i] == MAPPED_LEAD[i] { assert a[..12][i] == a[i]; }
    }
  }

  /** A network that is not mapped itself sees no difference between two mapped peers: its
      prefix ends before their IPv4 parts begin, or it holds neither. */
  lemma MappedAlike(p: Prefix, a: octets, b: octets)
    requires IsPrefix(p) && !Mapped(p.network) && Mapped(a) && Mapped(b)
    ensures Holds(p, a) ==> Holds(p, b)
  {
    if Holds(p, a) {
      MappedIsLead(a);
      MappedIsLead(b);
      MappedIsLead(p.network);
      SameBytesIsPrefix(a, p.network, p.bits);
      SameBytesIsPrefix(b, p.network, p.bits);
      if p.bits / 8 < 12 { LeadDecides(p, a, b); } else { LeadAgrees(p, a); }
    }
  }

  lemma LeadDecides(p: Prefix, a: octets, b: octets)
    requires IsPrefix(p) && |a| == |b| == |p.network| == 16 && p.bits / 8 < 12 && a[..12] == b[..12]
    requires SameBytes(a, p.network, p.bits)
    ensures SameBytes(b, p.network, p.bits)
  {
    var w := p.bits / 8;
    assert a[..w] == a[..12][..w] && b[..w] == b[..12][..w];
    assert a[w] == a[..12][w] && b[w] == b[..12][w];
  }

  lemma LeadAgrees(p: Prefix, a: octets)
    requires IsPrefix(p) && |a| == |p.network| == 16 && p.bits / 8 >= 12 && SameBytes(a, p.network, p.bits)
    ensures a[..12] == p.network[..12]
  {
    var w := p.bits / 8;
    assert a[..12] == a[..w][..12] && p.network[..12] == p.network[..w][..12];
  }

  lemma ListMappedAlike(cidrs: seq<Cidr>, a: octets, b: octets)
    requires NoMappedNetworks(cidrs) && Mapped(a) && Mapped(b) && CollectorMatches(cidrs, a)
    ensures CollectorMatches(cidrs, b)
  {
    var i :| 0 <= i < |cidrs| && CollectorPrefix(cidrs[i]).Some? && Holds(CollectorPrefix(cidrs[i]).value, a);
    MappedAlike(CollectorPrefix(cidrs[i]).value, a, b);
  }

  /** On the peer as it came the two differ exactly for a mapped peer whose IPv4 form is in
      one of the IPv4 networks while no network of the list spans the mapped addresses, or
      the other way round. The second verdict is one bit of the list alone. */
  lemma VerdictsDifferIff(cidrs: seq<Cidr>, a: octets)
    requires NoMappedNetworks(cidrs)
    ensures SdkMatches(cidrs, a) != CollectorMatches(cidrs, a)
            <==> Mapped(a) && CollectorMatches(cidrs, a[12..]) != CollectorMatches(cidrs, MAPPED_ZERO)
  {
    SdkIsCollectorFolded(cidrs, a);
    FoldedListIsSameIff(cidrs);
    if Mapped(a) {
      MappedIsLead(MAPPED_ZERO);
      assert MAPPED_ZERO[..12] == MAPPED_LEAD;
      if CollectorMatches(cidrs, a) { ListMappedAlike(cidrs, a, MAPPED_ZERO); }
      if CollectorMatches(cidrs, MAPPED_ZERO) { ListMappedAlike(cidrs, MAPPED_ZERO, a); }
    }
  }

  /** The ordinary case: a peer of the synthetic network 10.77.0.0/16 as a dual-stack listener
      reports it. The exporter counts it as synthetic and the collector does not. */
  lemma MappedPeerSplits(x: octet, y: octet)
    ensures var cidrs := [Cidr([10, 77, 0, 0], Bits(16))];
            var a := MAPPED_LEAD + [10, 77, x, y];
            NoMappedNetworks(cidrs) && Mapped(a) && SdkMatches(cidrs, a) && !CollectorMatches(cidrs, a)
  {
    var cidrs := [Cidr([10, 77, 0, 0], Bits(16))];
    var a := MAPPED_LEAD + [10, 77, x, y];
    assert Fold(a) == [10, 77, x, y];
    SameBytesIsPrefix(Fold(a), [10, 77, 0, 0], 16);
    var net: octets := [10, 77, 0, 0];
    assert Fold(a)[..2] == [10, 77] && net[..2] == [10, 77];
    assert SdkPrefix(cidrs[0]) == Some(Prefix([10, 77, 0, 0], 16));
  }

  // ------------------------------------------------------- one entry, one address

  /** An IPv4 address that is written as an IPv6 one, as the IPv4 address it is. */
  function Plain(a: octets): octets {
    if |a| == 16 && a[..12] == [0, 0, 0, 0, 0, 0, 0, 0, 0, 0, 0xFF, 0xFF] then a[12..] else a
  }

  /** The network with that many leading bits fixed holds the address: as numbers, both give
      the same when the other bits are cut off. */
  predicate InNetwork(net: octets, bits: int, a: octets) {
    |a| == |net| && 0 <= bits <= 8 * |net|
    && Value(net) / Pow2(8 * |net| - bits) == Value(a) / Pow2(8 * |net| - bits)
  }

  /** An entry without a suffix stands for one address; one with a length that is a number
      and fits its address for a network; any other for nothing. */
  predicate EntryHolds(address: octets, suffix: Suffix, a: octets) {
    match suffix
    case Absent => a == address
    case NotANumber => false
    case Bits(n) => InNetwork(address, n, a)
  }

  lemma WholePrefixIsEqual(net: octets, a: octets)
    ensures InPrefix(a, net, 8 * |net|) <==> a == net
  {
    if |a| == |net| {
      SameBytesIsPrefix(a, net, 8 * |net|);
      assert a[..|a|] == a && net[..|net|] == net;
    }
  }

  lemma EntryHoldsIff(address: octets, suffix: Suffix, a: octets)
    ensures (PrefixOf(address, suffix).Some? && Holds(PrefixOf(address, suffix).value, a))
            <==> EntryHolds(address, suffix, a)
  {
    if suffix.Absent? { WholePrefixIsEqual(address, a); }
  }

  lemma FoldIsPlain(a: octets)
    ensures Fold(a) == Plain(a)
  {
    if |a| == 16 { MappedIsLead(a); }
  }

  /** The verdicts entry by entry: some readable entry holds the address, the exporter's once
      both are plain and the collector's as they are. */
  lemma VerdictsMean(cidrs: seq<Cidr>, a: octets)
    ensures SdkMatches(cidrs, a)
            <==> exists i :: 0 <= i < |cidrs| && cidrs[i].Cidr?
                   && EntryHolds(Plain(cidrs[i].address), cidrs[i].suffix, Plain(a))
    ensures CollectorMatches(cidrs, a)
            <==> exists i :: 0 <= i < |cidrs| && cidrs[i].Cidr? && EntryHolds(cidrs[i].address, cidrs[i].suffix, a)
  {
    FoldIsPlain(a);
    forall i | 0 <= i < |cidrs| && cidrs[i].Cidr?
      ensures (SdkPrefix(cidrs[i]).Some? && Holds(SdkPrefix(cidrs[i]).value, Fold(a)))
              <==> EntryHolds(Plain(cidrs[i].address), cidrs[i].suffix, Plain(a))
      ensures (CollectorPrefix(cidrs[i]).Some? && Holds(CollectorPrefix(cidrs[i]).value, a))
              <==> EntryHolds(cidrs[i].address, cidrs[i].suffix, a)
    {
      FoldIsPlain(cidrs[i].address);
      EntryHoldsIff(Fold(cidrs[i].address), cidrs[i].suffix, Fold(a));
      EntryHoldsIff(cidrs[i].address, cidrs[i].suffix, a);
    }
  }
}
