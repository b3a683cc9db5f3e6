/** IP addresses as octets, CIDR blocks, and the arithmetic behind masked comparison. */
module Address {
  import opened Ordering

  type byte = x: int | 0 <= x < 256

  type Octets4 = s: seq<byte> | |s| == 4 witness [0, 0, 0, 0]

  type Octets16 = s: seq<byte> | |s| == 16 witness [0, 0, 0, 0, 0, 0, 0, 0, 0, 0, 0, 0, 0, 0, 0, 0]

  datatype IpAddr = V4(v4: Octets4) | V6(v6: Octets16)

  datatype Family = Inet4 | Inet6

  function FamilyOf(a: IpAddr): Family {
    if a.V6? then Inet6 else Inet4
  }

  /** Big-endian address bytes: 4 for IPv4, 16 for IPv6. */
  function Octets(a: IpAddr): (r: seq<byte>)
    ensures |r| == if a.V4? then 4 else 16
  {
    match a
    case V4(o) => o
    case V6(o) => o
  }

  /** Rust's derived order on `IpAddr`: every IPv4 address before every IPv6 one, then by octets. */
  predicate IpLe(a: IpAddr, b: IpAddr) {
    if a.V4? && b.V4? then LexLe((x: byte) => x, a.v4, b.v4)
    else if a.V6? && b.V6? then LexLe((x: byte) => x, a.v6, b.v6)
    else a.V4?
  }

  lemma IpOrder()
    ensures TotalOrder(IpLe)
  {
    var key := (x: byte) => x;
    forall a: IpAddr, b: IpAddr ensures (IpLe(a, b) || IpLe(b, a)) && (IpLe(a, b) && IpLe(b, a) ==> a == b) {
      LexTotal(key, Octets(a), Octets(b));
    }
    forall a: IpAddr, b: IpAddr, c: IpAddr | IpLe(a, b) && IpLe(b, c) ensures IpLe(a, c) {
      if a.V4? == b.V4? == c.V4? {
        LexTransitive(key, Octets(a), Octets(b), Octets(c));
      }
    }
  }

  function AscendingAddrs(s: set<IpAddr>): (r: seq<IpAddr>)
    ensures forall x :: x in r <==> x in s
    ensures forall i, j :: 0 <= i < j < |r| ==> IpLe(r[i], r[j]) && r[i] != r[j]
  {
    IpOrder();
    Ascending(s, IpLe)
  }

  // ----- bytes as bit strings -----

  function Pow2(n: nat): (r: nat)
    ensures r >= 1
  {
    if n == 0 then 1 else 2 * Pow2(n - 1)
  }

  /** Bitwise AND of two naturals. */
  function BitAnd(a: nat, b: nat): (r: nat)
    ensures r <= a && r <= b
    decreases a
  {
    if a == 0 || b == 0 then 0 else 2 * BitAnd(a / 2, b / 2) + (if a % 2 == 1 && b % 2 == 1 then 1 else 0)
  }

  /** Bitwise XOR of two naturals. */
  function BitXor(a: nat, b: nat): nat
    decreases a + b
  {
    if a == 0 then b else if b == 0 then a else 2 * BitXor(a / 2, b / 2) + (a + b) % 2
  }

  lemma AndOne(a: nat)
    ensures BitAnd(a, 1) == a % 2
  {
    AndOdd(a, 0);
  }

  /** The one bit that a mask of 8 selects. */
  lemma AndEight(a: nat)
    ensures BitAnd(a, 8) == 8 * (a / 8 % 2)
  {
    AndEven(a, 4);
    AndEven(a / 2, 2);
    AndEven(a / 2 / 2, 1);
    AndOne(a / 2 / 2 / 2);
  }

  /** The two bits that a mask of 6 selects. */
  lemma AndSix(a: nat)
    ensures BitAnd(a, 6) == 2 * (a / 2 % 2) + 4 * (a / 4 % 2)
  {
    AndEven(a, 3);
    AndOdd(a / 2, 1);
    AndOne(a / 2 / 2);
  }

  lemma {:induction false} Pow2Add(a: nat, b: nat)
    ensures Pow2(a + b) == Pow2(a) * Pow2(b)
  {
    if a > 0 {
      Pow2Add(a - 1, b);
      assert Pow2(a + b) == 2 * Pow2(a - 1 + b);
    }
  }

  lemma {:induction false} Pow2Grows(k: nat, n: nat)
    requires k <= n
    ensures Pow2(k) <= Pow2(n)
  {
    if k < n { Pow2Grows(k, n - 1); }
  }

  /** ANDing an n-bit number with n ones is the identity. */
  lemma {:induction false} AndOnes(a: nat, n: nat)
    requires a < Pow2(n)
    ensures BitAnd(a, Pow2(n) - 1) == a
  {
    if n > 0 {
      AndOnes(a / 2, n - 1);
      AndOdd(a, Pow2(n - 1) - 1);
    }
  }

  /** The low `k` bits set to zero. */
  function Cleared(a: nat, k: nat): int {
    a - a % Pow2(k)
  }

  lemma NothingCleared(a: nat, n: nat)
    requires a < Pow2(n)
    ensures BitAnd(a, Pow2(n) - Pow2(0)) == Cleared(a, 0)
  {
    hide BitAnd;
    AndOnes(a, n);
    assert Pow2(0) == 1 && a % 1 == 0;
  }

  /** ANDing an n-bit number with a mask of ones above the low k bits clears those low bits. */
  lemma {:induction false} AndHighMask(a: nat, n: nat, k: nat)
    requires k <= n && a < Pow2(n)
    ensures Pow2(k) <= Pow2(n)
    ensures BitAnd(a, Pow2(n) - Pow2(k)) == Cleared(a, k)
  {
    hide Cleared;
    Pow2Grows(k, n);
    if k == 0 {
      NothingCleared(a, n);
    } else {
      hide BitAnd;
      Pow2Grows(k - 1, n - 1);
      assert Pow2(n) == 2 * Pow2(n - 1);
      hide Pow2;
      AndHighMask(a / 2, n - 1, k - 1);
      ShiftMask(a, n, k);
    }
  }

  lemma {:induction false} ShiftMask(a: nat, n: nat, k: nat)
    requires 0 < k <= n && Pow2(k - 1) <= Pow2(n - 1) && Pow2(k) <= Pow2(n)
    requires BitAnd(a / 2, Pow2(n - 1) - Pow2(k - 1)) == Cleared(a / 2, k - 1)
    ensures BitAnd(a, Pow2(n) - Pow2(k)) == Cleared(a, k)
  {
    hide BitAnd;
    var half := Pow2(k - 1);
    assert Pow2(k) == 2 * half && Pow2(n) == 2 * Pow2(n - 1);
    hide Pow2;
    AndEven(a, Pow2(n - 1) - half);
    HalfMod(a, half);
  }

  lemma AndEven(a: nat, m: nat)
    ensures BitAnd(a, 2 * m) == 2 * BitAnd(a / 2, m)
  {
    assert (2 * m) / 2 == m && (2 * m) % 2 == 0;
  }

  lemma AndOdd(a: nat, m: nat)
    ensures BitAnd(a, 2 * m + 1) == 2 * BitAnd(a / 2, m) + a % 2
  {
    assert (2 * m + 1) / 2 == m && (2 * m + 1) % 2 == 1;
  }

  lemma HalfMod(a: nat, m: nat)
    requires m > 0
    ensures a - a % (2 * m) == 2 * (a / 2 - (a / 2) % m)
  {
    var q, r := (a / 2) / m, (a / 2) % m;
    assert a / 2 == q * m + r;
    assert a == 2 * (q * m) + (2 * r + a % 2);
    assert 2 * (q * m) == q * (2 * m);
    DivModUnique(a, 2 * m, q, 2 * r + a % 2);
  }

  lemma {:induction false} MulAtLeast(x: int, d: int)
    requires x >= 1 && d > 0
    ensures x * d >= d
    decreases x
  {
    if x > 1 {
      MulAtLeast(x - 1, d);
      assert x * d == (x - 1) * d + d;
    }
  }

  lemma Distribute(x: int, y: int, d: int)
    ensures (x - y) * d == x * d - y * d
  {}

  /** Division with remainder is unique. */
  lemma DivModUnique(a: int, d: int, q: int, r: int)
    requires d > 0 && 0 <= r < d && a == q * d + r
    ensures a / d == q && a % d == r
  {
    var q', r' := a / d, a % d;
    assert a == d * q' + r';
    assert d * q' == q' * d;
    Distribute(q, q', d);
    Distribute(q', q, d);
    if q > q' {
      MulAtLeast(q - q', d);
    } else if q < q' {
      MulAtLeast(q' - q, d);
    }
  }

  // ----- CIDR blocks -----

  /** An address block: IPv4 or IPv6, host bits of `addr` need not be zero. */
  datatype Cidr = Cidr(addr: IpAddr, prefix: nat)

  function Width(f: Family): nat {
    if f == Inet6 then 128 else 32
  }

  predicate ValidCidr(c: Cidr) {
    c.prefix <= if c.addr.V4? then 32 else 128
  }

  /** The integer an octet string spells, most significant octet first. */
  function Value(s: seq<byte>): nat {
    if s == [] then 0 else Value(s[..|s| - 1]) * 256 + s[|s| - 1]
  }

  /** In the aligned run of `size` numbers that holds `start`. */
  predicate InRun(v: nat, start: nat, size: nat)
    requires size > 0
  {
    start - start % size <= v < start - start % size + size
  }

  /** Numeric membership: the aligned block of 2^(width-prefix) addresses holding `c.addr`. */
  predicate InBlock(c: Cidr, a: IpAddr)
    requires ValidCidr(c)
  {
    match c.addr
    case V4(net) => a.V4? && InRun(Value(a.v4), Value(net), Pow2(32 - c.prefix))
    case V6(net) => a.V6? && InRun(Value(a.v6), Value(net), Pow2(128 - c.prefix))
  }

  /** Bits of the network mask that fall in octet `i`. */
  function MaskBits(prefix: nat, i: nat): (k: nat)
    ensures k <= 8
  {
    if prefix <= 8 * i then 0 else if prefix >= 8 * i + 8 then 8 else prefix - 8 * i
  }

  function MaskByte(prefix: nat, i: nat): byte {
    assert Pow2(8) == 256;
    AndHighMask(0, 8, 8 - MaskBits(prefix, i));
    Pow2(8) - Pow2(8 - MaskBits(prefix, i))
  }

  /** The network mask of a `prefix`-bit block in `n` octets. */
  function Mask(n: nat, prefix: nat): (m: seq<byte>)
    ensures |m| == n
  {
    seq(n, i requires 0 <= i < n => MaskByte(prefix, i))
  }

  function AndBytes(a: seq<byte>, b: seq<byte>): (r: seq<byte>)
    ensures |r| == if |a| < |b| then |a| else |b|
  {
    seq(if |a| < |b| then |a| else |b|, i requires 0 <= i < |a| && i < |b| => BitAnd(a[i], b[i]))
  }

  function XorByte(a: byte, b: byte): byte {
    var x := BitXor(a, b);
    if x < 256 then x else 0
  }

  function XorBytes(a: seq<byte>, b: seq<byte>): (r: seq<byte>)
    ensures |r| == if |a| < |b| then |a| else |b|
  {
    seq(if |a| < |b| then |a| else |b|, i requires 0 <= i < |a| && i < |b| => XorByte(a[i], b[i]))
  }

  function NetworkBytes(c: Cidr): seq<byte> {
    AndBytes(Octets(c.addr), Mask(|Octets(c.addr)|, c.prefix))
  }

  lemma XorZero(a: seq<byte>, zeros: seq<byte>)
    requires |zeros| == |a| && forall i | 0 <= i < |a| :: zeros[i] == 0
    ensures XorBytes(a, zeros) == a
  {}

  /** Octet strings of one length are ordered and identified by their value. */
  lemma {:induction false} ValueInjective(x: seq<byte>, y: seq<byte>)
    requires |x| == |y| && Value(x) == Value(y)
    ensures x == y
  {
    if x == [] {
    } else {
      var n := |x| - 1;
      ValueInjective(x[..n], y[..n]);
      assert x == x[..n] + [x[n]] && y == y[..n] + [y[n]];
    }
  }

  /** Masking octet `i` keeps its top `MaskBits(prefix, i)` bits. */
  lemma MaskedByte(x: byte, prefix: nat, i: nat)
    ensures BitAnd(x, MaskByte(prefix, i)) == x - x % Pow2(8 - MaskBits(prefix, i))
  {
    hide BitAnd;
    assert Pow2(8) == 256;
    AndHighMask(x, 8, 8 - MaskBits(prefix, i));
  }

  lemma SmallPow2()
    ensures Pow2(0) == 1 && Pow2(1) == 2 && Pow2(2) == 4 && Pow2(3) == 8 && Pow2(4) == 16
    ensures Pow2(5) == 32 && Pow2(6) == 64 && Pow2(7) == 128 && Pow2(8) == 256
  {}

  lemma {:induction false} MaskPrefix(x: seq<byte>, n: nat, prefix: nat)
    requires n + 1 == |x|
    ensures AndBytes(x, Mask(n + 1, prefix))
         == AndBytes(x[..n], Mask(n, prefix)) + [BitAnd(x[n], MaskByte(prefix, n))]
  {}

  /** Splitting off the last octet when it lies wholly below the prefix. */
  lemma DivLow(v: nat, last: byte, k: nat)
    ensures Pow2(k) > 0 && (v * 256 + last) / Pow2(k + 8) == v / Pow2(k)
  {
    Pow2Add(k, 8);
    assert Pow2(8) == 256;
    var p := Pow2(k);
    var q, r := v / p, v % p;
    assert v == q * p + r;
    assert v * 256 + last == q * (p * 256) + (r * 256 + last);
    assert r * 256 + last < p * 256 by { assert r <= p - 1; }
    DivModUnique(v * 256 + last, p * 256, q, r * 256 + last);
  }

  ghost predicate SameMasked(x: seq<byte>, y: seq<byte>, prefix: nat) {
    AndBytes(x, Mask(|x|, prefix)) == AndBytes(y, Mask(|y|, prefix))
  }

  ghost predicate SameTopBits(x: seq<byte>, y: seq<byte>, prefix: nat)
    requires |x| == |y| && prefix <= 8 * |x|
  {
    Value(x) / Pow2(8 * |x| - prefix) == Value(y) / Pow2(8 * |x| - prefix)
  }

  /** Octetwise masked equality is equality of the numbers' top `prefix` bits. */
  lemma {:induction false} MaskedEqual(x: seq<byte>, y: seq<byte>, prefix: nat)
    requires |x| == |y| && prefix <= 8 * |x|
    ensures SameMasked(x, y, prefix) <==> SameTopBits(x, y, prefix)
  {
    if x == [] {
    } else {
      var n := |x| - 1;
      MaskedStep(x, y, prefix, n);
      if prefix <= 8 * n {
        MaskedEqual(x[..n], y[..n], prefix);
        LowStep(x, y, prefix, n);
      } else {
        HighStep(x, y, prefix, n);
      }
    }
  }

  lemma {:induction false} MaskedStep(x: seq<byte>, y: seq<byte>, prefix: nat, n: nat)
    requires |x| == |y| == n + 1
    ensures SameMasked(x, y, prefix)
       <==> (SameMasked(x[..n], y[..n], prefix)
             && BitAnd(x[n], MaskByte(prefix, n)) == BitAnd(y[n], MaskByte(prefix, n)))
  {
    MaskPrefix(x, n, prefix);
    MaskPrefix(y, n, prefix);
    AppendEqual(AndBytes(x[..n], Mask(n, prefix)), AndBytes(y[..n], Mask(n, prefix)),
                BitAnd(x[n], MaskByte(prefix, n)), BitAnd(y[n], MaskByte(prefix, n)));
  }

  lemma {:induction false} LowStep(x: seq<byte>, y: seq<byte>, prefix: nat, n: nat)
    requires |x| == |y| == n + 1 && prefix <= 8 * n
    ensures BitAnd(x[n], MaskByte(prefix, n)) == BitAnd(y[n], MaskByte(prefix, n))
    ensures SameTopBits(x, y, prefix) <==> SameTopBits(x[..n], y[..n], prefix)
  {
    ClearedOctet(x[n], prefix, n);
    ClearedOctet(y[n], prefix, n);
    DropOctet(x, prefix, n);
    DropOctet(y, prefix, n);
  }

  lemma DropOctet(x: seq<byte>, prefix: nat, n: nat)
    requires |x| == n + 1 && prefix <= 8 * n
    ensures Value(x) / Pow2(8 * |x| - prefix) == Value(x[..n]) / Pow2(8 * n - prefix)
  {
    var k := 8 * n - prefix;
    assert 8 * |x| - prefix == k + 8;
    DivLow(Value(x[..n]), x[n], k);
  }

  lemma ClearedOctet(x: byte, prefix: nat, n: nat)
    requires prefix <= 8 * n
    ensures BitAnd(x, MaskByte(prefix, n)) == 0
  {
    SmallPow2();
    MaskedByte(x, prefix, n);
  }

  lemma {:induction false} HighStep(x: seq<byte>, y: seq<byte>, prefix: nat, n: nat)
    requires |x| == |y| == n + 1 && 8 * n < prefix <= 8 * n + 8
    ensures (SameMasked(x[..n], y[..n], prefix)
             && BitAnd(x[n], MaskByte(prefix, n)) == BitAnd(y[n], MaskByte(prefix, n)))
       <==> SameTopBits(x, y, prefix)
  {
    FullMask(x[..n], n, prefix);
    FullMask(y[..n], n, prefix);
    KeptOctet(x[n], prefix, n);
    KeptOctet(y[n], prefix, n);
    TopBitsOfLast(x, y, prefix, n);
    if Value(x[..n]) == Value(y[..n]) { ValueInjective(x[..n], y[..n]); }
  }

  lemma KeptOctet(x: byte, prefix: nat, n: nat)
    requires 8 * n < prefix <= 8 * n + 8
    ensures BitAnd(x, MaskByte(prefix, n)) == x - x % Pow2(8 * n + 8 - prefix)
  {
    MaskedByte(x, prefix, n);
  }

  lemma TopBitsOfLast(x: seq<byte>, y: seq<byte>, prefix: nat, n: nat)
    requires |x| == |y| == n + 1 && 8 * n < prefix <= 8 * n + 8
    ensures SameTopBits(x, y, prefix)
       <==> (Value(x[..n]) == Value(y[..n])
             && x[n] - x[n] % Pow2(8 * n + 8 - prefix) == y[n] - y[n] % Pow2(8 * n + 8 - prefix))
  {
    var k := 8 * n + 8 - prefix;
    assert 8 * |x| - prefix == k;
    HighOctet(Value(x[..n]), x[n], Value(y[..n]), y[n], k);
  }

  lemma HighOctet(v: nat, x: byte, w: nat, y: byte, k: nat)
    requires k <= 8
    ensures (v == w && x - x % Pow2(k) == y - y % Pow2(k))
       <==> (v * 256 + x) / Pow2(k) == (w * 256 + y) / Pow2(k)
  {
    SameHighBits(x, y, k);
    DivHigh(v, x, k);
    DivHigh(w, y, k);
    EqualDigits(v, w, x / Pow2(k), y / Pow2(k), Pow2(8 - k));
  }

  /** Splitting off the last octet when the prefix reaches into it. */
  lemma DivHigh(v: nat, last: byte, k: nat)
    requires k <= 8
    ensures (v * 256 + last) / Pow2(k) == v * Pow2(8 - k) + last / Pow2(k)
    ensures 0 <= last / Pow2(k) < Pow2(8 - k)
  {
    SmallPow2();
  }

  lemma EqualDigits(v: nat, w: nat, d: nat, e: nat, base: nat)
    requires d < base && e < base
    ensures v * base + d == w * base + e <==> v == w && d == e
  {
    if v * base + d == w * base + e {
      DivModUnique(v * base + d, base, v, d);
      DivModUnique(w * base + e, base, w, e);
    }
  }

  lemma SameHighBits(x: byte, y: byte, k: nat)
    requires k <= 8
    ensures x - x % Pow2(k) == y - y % Pow2(k) <==> x / Pow2(k) == y / Pow2(k)
  {
    SmallPow2();
  }

  lemma AppendEqual<T>(a: seq<T>, b: seq<T>, x: T, y: T)
    requires |a| == |b|
    ensures a + [x] == b + [y] <==> a == b && x == y
  {
    if a + [x] == b + [y] {
      assert a == (a + [x])[..|a|] && b == (b + [y])[..|b|];
      assert x == (a + [x])[|a|] && y == (b + [y])[|b|];
    }
  }

  lemma FullMask(a: seq<byte>, n: nat, prefix: nat)
    requires |a| == n && prefix >= 8 * n
    ensures AndBytes(a, Mask(n, prefix)) == a
  {
    forall i | 0 <= i < n ensures BitAnd(a[i], MaskByte(prefix, i)) == a[i] {
      MaskedByte(a[i], prefix, i);
    }
  }

  lemma BlockByDivision(v: nat, c: nat, size: nat)
    requires size > 0
    ensures c - c % size <= v < c - c % size + size <==> v / size == c / size
  {
    var q, r := c / size, v % size;
    assert c - c % size == q * size;
    assert v == (v / size) * size + r;
    if q * size <= v < q * size + size {
      DivModUnique(v, size, q, v - q * size);
    }
  }

  /** The kernel's masked compare on address octets is numeric block membership
      (section 3.1 of RFC 4632, section 2.3 of RFC 4291). */
  lemma MaskedCompareIsBlock(c: Cidr, a: IpAddr)
    requires ValidCidr(c) && FamilyOf(a) == FamilyOf(c.addr)
    ensures AndBytes(Octets(a), Mask(|Octets(c.addr)|, c.prefix)) == NetworkBytes(c) <==> InBlock(c, a)
  {
    var width := if c.addr.V4? then 32 else 128;
    MaskedEqual(Octets(a), Octets(c.addr), c.prefix);
    BlockByDivision(Value(Octets(a)), Value(Octets(c.addr)), Pow2(width - c.prefix));
  }

  // ----- blocks bit by bit -----

  const BIT_WEIGHTS := [128, 64, 32, 16, 8, 4, 2, 1]

  /** Bit `b` of an octet, the most significant first. */
  function OctetBit(x: byte, b: nat): int
    requires b < 8
  {
    x / BIT_WEIGHTS[b] % 2
  }

  lemma {:induction false} TopBitsOfOctet(x: byte, y: byte, m: nat)
    requires m <= 8
    ensures x / Pow2(8 - m) == y / Pow2(8 - m) <==> forall b | 0 <= b < m :: OctetBit(x, b) == OctetBit(y, b)
  {
    SmallPow2();
    if m == 0 {
    } else {
      TopBitsOfOctet(x, y, m - 1);
      NextBit(x, m);
      NextBit(y, m);
    }
  }

  lemma NextBit(x: byte, m: nat)
    requires 1 <= m <= 8
    ensures x / Pow2(8 - m) == 2 * (x / Pow2(9 - m)) + OctetBit(x, m - 1)
  {
    SmallPow2();
  }

  /** Bit `i` of an address, the most significant first. */
  function AddrBit(a: IpAddr, i: nat): int
    requires i < if a.V4? then 32 else 128
  {
    match a
    case V4(o) => OctetBit(o[i / 8], i % 8)
    case V6(o) => OctetBit(o[i / 8], i % 8)
  }

  /** The addresses are of one family and agree on their first `n` bits. */
  predicate AgreeOn(a: IpAddr, b: IpAddr, n: nat) {
    && a.V4? == b.V4?
    && n <= (if a.V4? then 32 else 128)
    && forall i | 0 <= i < n :: AddrBit(a, i) == AddrBit(b, i)
  }

  lemma MaskedOctetBits(x: byte, y: byte, prefix: nat, j: nat)
    ensures BitAnd(x, MaskByte(prefix, j)) == BitAnd(y, MaskByte(prefix, j))
       <==> forall b | 0 <= b < 8 && 8 * j + b < prefix :: OctetBit(x, b) == OctetBit(y, b)
  {
    hide BitAnd, MaskByte, OctetBit, Pow2;
    var m := MaskBits(prefix, j);
    MaskedByte(x, prefix, j);
    MaskedByte(y, prefix, j);
    SameHighBits(x, y, 8 - m);
    TopBitsOfOctet(x, y, m);
  }

  lemma SameMaskedByOctet(x: seq<byte>, y: seq<byte>, prefix: nat)
    requires |x| == |y|
    ensures SameMasked(x, y, prefix)
       <==> forall j | 0 <= j < |x| :: BitAnd(x[j], MaskByte(prefix, j)) == BitAnd(y[j], MaskByte(prefix, j))
  {
    hide BitAnd, MaskByte;
    var a, b := AndBytes(x, Mask(|x|, prefix)), AndBytes(y, Mask(|y|, prefix));
    if a == b {
      forall j | 0 <= j < |x| ensures BitAnd(x[j], MaskByte(prefix, j)) == BitAnd(y[j], MaskByte(prefix, j)) {
        assert a[j] == b[j];
      }
    }
  }

  predicate SameBits(x: seq<byte>, y: seq<byte>, n: nat)
    requires |x| == |y| && n <= 8 * |x|
  {
    forall i | 0 <= i < n :: OctetBit(x[i / 8], i % 8) == OctetBit(y[i / 8], i % 8)
  }

  lemma SameMaskedBits(x: seq<byte>, y: seq<byte>, prefix: nat)
    requires |x| == |y| && prefix <= 8 * |x|
    ensures SameMasked(x, y, prefix) <==> SameBits(x, y, prefix)
  {
    hide BitAnd, MaskByte, OctetBit, SameMasked;
    SameMaskedByOctet(x, y, prefix);
    forall j | 0 <= j < |x|
      ensures BitAnd(x[j], MaskByte(prefix, j)) == BitAnd(y[j], MaskByte(prefix, j))
         <==> forall b | 0 <= b < 8 && 8 * j + b < prefix :: OctetBit(x[j], b) == OctetBit(y[j], b)
    {
      MaskedOctetBits(x[j], y[j], prefix, j);
    }
    if SameMasked(x, y, prefix) {
      forall i | 0 <= i < prefix ensures OctetBit(x[i / 8], i % 8) == OctetBit(y[i / 8], i % 8) {
        assert BitAnd(x[i / 8], MaskByte(prefix, i / 8)) == BitAnd(y[i / 8], MaskByte(prefix, i / 8));
        assert 8 * (i / 8) + i % 8 == i;
      }
    }
    if SameBits(x, y, prefix) {
      forall j, b | 0 <= j < |x| && 0 <= b < 8 && 8 * j + b < prefix ensures OctetBit(x[j], b) == OctetBit(y[j], b) {
        assert (8 * j + b) / 8 == j && (8 * j + b) % 8 == b;
      }
    }
  }

  lemma AgreeIsSameBits(a: IpAddr, b: IpAddr, n: nat)
    requires a.V4? == b.V4? && n <= 8 * |Octets(a)|
    ensures AgreeOn(a, b, n) <==> SameBits(Octets(a), Octets(b), n)
  {
    hide OctetBit;
    assert forall i | 0 <= i < n :: AddrBit(a, i) == OctetBit(Octets(a)[i / 8], i % 8);
    assert forall i | 0 <= i < n :: AddrBit(b, i) == OctetBit(Octets(b)[i / 8], i % 8);
  }

  /** A block holds exactly the addresses of its family that agree with it on the first `prefix` bits. */
  lemma BlockIsFirstBits(c: Cidr, a: IpAddr)
    requires ValidCidr(c)
    ensures InBlock(c, a) <==> AgreeOn(c.addr, a, c.prefix)
  {
    if c.addr.V4? == a.V4? {
      MaskedCompareIsBlock(c, a);
      hide BitAnd, Mask, OctetBit, InBlock, AgreeOn, SameBits, Octets;
      SameMaskedBits(Octets(c.addr), Octets(a), c.prefix);
      AgreeIsSameBits(c.addr, a, c.prefix);
    }
  }
}
