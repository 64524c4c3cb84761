/** CIDR blocks (section 3.1 of RFC 4632) as sets of addresses, and the checks the validator makes on them. */
module Cidr {

  // ---------- network bits ----------

  /** x without its k lowest bits. */
  function Shift(x: nat, k: nat): nat {
    if k == 0 then x else Shift(x, k - 1) / 2
  }

  /** The number with network bits q and k zero bits after them. */
  function Unshift(q: nat, k: nat): nat
    decreases k
  {
    if k == 0 then q else Unshift(2 * q, k - 1)
  }

  lemma {:induction false} UnshiftGrows(q: nat, k: nat)
    ensures Unshift(q, k) < Unshift(q + 1, k)
    decreases k
  {
    if k == 0 {
    } else {
      UnshiftGrows(2 * q, k - 1);
      UnshiftGrows(2 * q + 1, k - 1);
    }
  }

  lemma {:induction false} UnshiftMonotone(p: nat, q: nat, k: nat)
    requires p <= q
    ensures Unshift(p, k) <= Unshift(q, k)
    decreases q - p
  {
    if p == q {
    } else {
      UnshiftGrows(p, k);
      UnshiftMonotone(p + 1, q, k);
    }
  }

  /** The numbers with network bits q form an interval. */
  lemma {:induction false} ShiftIff(x: nat, q: nat, k: nat)
    ensures Shift(x, k) == q <==> Unshift(q, k) <= x < Unshift(q + 1, k)
    decreases k
  {
    if k == 0 {
    } else {
      ShiftIff(x, 2 * q, k - 1);
      ShiftIff(x, 2 * q + 1, k - 1);
      UnshiftGrows(2 * q, k - 1);
      UnshiftGrows(2 * q + 1, k - 1);
    }
  }

  lemma {:induction false} ShiftTwice(x: nat, k: nat, j: nat)
    ensures Shift(x, k + j) == Shift(Shift(x, k), j)
  {
    if j == 0 {
    } else {
      ShiftTwice(x, k, j - 1);
    }
  }

  lemma {:induction false} UnshiftTwice(q: nat, j: nat, k: nat)
    ensures Unshift(q, j + k) == Unshift(Unshift(q, j), k)
    decreases j
  {
    if j == 0 {
    } else {
      UnshiftTwice(2 * q, j - 1, k);
    }
  }

  lemma Unshift4(q: nat)
    ensures Unshift(q, 1) == 2 * q && Unshift(q, 2) == 4 * q && Unshift(q, 4) == 16 * q
  {
    assert Unshift(4 * q, 2) == Unshift(8 * q, 1) == 16 * q;
    assert Unshift(q, 4) == Unshift(2 * q, 3) == Unshift(4 * q, 2);
  }

  /** Four more zero bits. */
  lemma FourMore(q: nat, j: nat)
    ensures Unshift(q, j + 4) == 16 * Unshift(q, j)
  {
    UnshiftTwice(q, j, 4);
    Unshift4(Unshift(q, j));
  }

  lemma UnshiftValues(q: nat)
    ensures Unshift(q, 16) == 0x1_0000 * q && Unshift(q, 20) == 0x10_0000 * q && Unshift(q, 24) == 0x100_0000 * q
  {
    FourMore(q, 0);
    FourMore(q, 4);
    FourMore(q, 8);
    FourMore(q, 12);
    FourMore(q, 16);
    FourMore(q, 20);
  }

  // ---------- blocks ----------

  datatype Family = IPv4 | IPv6

  datatype Address = Address(family: Family, value: nat)

  /** A parsed CIDR: the address as it was written, which need not be the first one of its block. */
  datatype Block = Block(family: Family, prefix: nat, address: nat)

  function Width(f: Family): nat {
    if f == IPv4 then 32 else 128
  }

  /** How many addresses a family has. */
  function Limit(f: Family): nat {
    if f == IPv4 then 0x1_0000_0000 else 0x1_0000_0000_0000_0000_0000_0000_0000_0000
  }

  type Net = b: Block | b.prefix <= Width(b.family) && b.address < Limit(b.family) witness Block(IPv4, 32, 0)

  function HostBits(b: Net): nat {
    Width(b.family) - b.prefix
  }

  function NetworkBits(b: Net): nat {
    Shift(b.address, HostBits(b))
  }

  function First(b: Net): nat {
    Unshift(NetworkBits(b), HostBits(b))
  }

  /** The first address after the block. */
  function End(b: Net): nat {
    Unshift(NetworkBits(b) + 1, HostBits(b))
  }

  function Last(b: Net): (last: nat)
    ensures First(b) <= last == End(b) - 1
  {
    UnshiftGrows(NetworkBits(b), HostBits(b));
    End(b) - 1
  }

  lemma FirstOfFirst(b: Net)
    ensures First(b) <= b.address <= Last(b)
    ensures Shift(First(b), HostBits(b)) == NetworkBits(b)
  {
    ShiftIff(b.address, NetworkBits(b), HostBits(b));
    ShiftIff(First(b), NetworkBits(b), HostBits(b));
  }

  /** The masked network a parser returns beside the address. */
  function Masked(b: Net): (m: Net)
    ensures m.family == b.family && m.prefix == b.prefix && m.address == First(b) == First(m)
  {
    FirstOfFirst(b);
    Block(b.family, b.prefix, First(b))
  }

  /** A block contains an address when the network bits agree. */
  predicate Contains(b: Net, a: Address) {
    a.family == b.family && Shift(a.value, HostBits(b)) == NetworkBits(b)
  }

  /** The block is written with its first address. */
  predicate Canonical(b: Net) {
    b.address == First(b)
  }

  /** The subset check: the first and the last address of the inner block lie in the outer one. */
  predicate SubsetCheck(outer: Net, inner: Net) {
    && Contains(outer, Address(inner.family, First(inner)))
    && Contains(outer, Address(inner.family, Last(inner)))
  }

  /** The overlap check: either block contains the first address of the other. */
  predicate OverlapCheck(a: Net, b: Net) {
    Contains(a, Address(b.family, First(b))) || Contains(b, Address(a.family, First(a)))
  }

  ghost predicate Subset(outer: Net, inner: Net) {
    forall x :: Contains(inner, x) ==> Contains(outer, x)
  }

  ghost predicate Disjoint(a: Net, b: Net) {
    forall x :: !(Contains(a, x) && Contains(b, x))
  }

  /** Membership by network bits is membership in the interval from First to Last. */
  lemma ContainsIffBetween(b: Net, x: Address)
    ensures Contains(b, x) <==> x.family == b.family && First(b) <= x.value <= Last(b)
  {
    ShiftIff(x.value, NetworkBits(b), HostBits(b));
  }

  // ---------- network bits as division by a power of two ----------

  function Pow2(k: nat): (r: nat)
    ensures r > 0
  {
    if k == 0 then 1 else 2 * Pow2(k - 1)
  }

  lemma {:induction false} UnshiftIsProduct(q: nat, k: nat)
    ensures Unshift(q, k) == q * Pow2(k)
    decreases k
  {
    if k == 0 {
    } else {
      UnshiftIsProduct(2 * q, k - 1);
      assert 2 * q * Pow2(k - 1) == q * (2 * Pow2(k - 1));
    }
  }

  lemma ProductGrows(a: int, b: int, p: nat)
    ensures a <= b ==> a * p <= b * p
  {
  }

  lemma NextProduct(q: nat, p: nat)
    ensures (q + 1) * p == q * p + p
  {
  }

  lemma QuotientIsUnique(x: nat, p: nat, q: nat)
    requires p > 0 && q * p <= x < (q + 1) * p
    ensures x / p == q
  {
    var d := x / p;
    assert x == d * p + x % p;
    ProductGrows(d + 1, q, p);
    ProductGrows(q + 1, d, p);
  }

  lemma ShiftIsQuotient(x: nat, k: nat)
    ensures Shift(x, k) == x / Pow2(k)
  {
    var q := Shift(x, k);
    ShiftIff(x, q, k);
    UnshiftIsProduct(q, k);
    UnshiftIsProduct(q + 1, k);
    QuotientIsUnique(x, Pow2(k), q);
  }

  /** What containment is: the same family, and the same bits in front of the last 32 or 128 less prefix ones. */
  lemma ContainsExactly(b: Net, a: Address)
    ensures
      var size := Pow2((if b.family.IPv4? then 32 else 128) - b.prefix);
      Contains(b, a) <==> a.family == b.family && a.value / size == b.address / size
  {
    ShiftIsQuotient(a.value, HostBits(b));
    ShiftIsQuotient(b.address, HostBits(b));
  }

  lemma BlockEnds(q: nat, k: nat)
    ensures Unshift(q + 1, k) == Unshift(q, k) + Pow2(k)
  {
    UnshiftIsProduct(q, k);
    UnshiftIsProduct(q + 1, k);
    NextProduct(q, Pow2(k));
  }

  /** A block has 2 to the power of its host bits addresses. */
  lemma BlockSize(b: Net)
    ensures Last(b) - First(b) + 1 == Pow2((if b.family.IPv4? then 32 else 128) - b.prefix)
  {
    BlockEnds(NetworkBits(b), HostBits(b));
  }

  lemma Unshift24(q: nat, j: nat)
    ensures Unshift(q, j + 24) == 0x100_0000 * Unshift(q, j)
  {
    UnshiftTwice(q, j, 24);
    UnshiftValues(Unshift(q, j));
  }

  lemma FullWidth(f: Family)
    ensures Unshift(1, Width(f)) == Limit(f)
  {
    Unshift24(1, 8);
    FourMore(1, 4);
    FourMore(1, 0);
    Unshift24(1, 32);
    Unshift24(1, 56);
    Unshift24(1, 80);
    Unshift24(1, 104);
  }

  lemma {:induction false} ZeroStaysZero(k: nat)
    ensures Shift(0, k) == 0 && Unshift(0, k) == 0
    decreases k
  {
    if k == 0 {
    } else {
      ZeroStaysZero(k - 1);
    }
  }

  lemma BoundsFromBits(b: Net, q: nat)
    requires NetworkBits(b) == q
    ensures First(b) == Unshift(q, HostBits(b)) && Last(b) == Unshift(q + 1, HostBits(b)) - 1
  {
  }

  lemma NoBits(b: Net)
    requires b.address == 0
    ensures NetworkBits(b) == 0 && Unshift(0, HostBits(b)) == 0
  {
    ZeroStaysZero(HostBits(b));
  }

  /** The block with the empty prefix is the whole family. */
  lemma EmptyPrefixIsAll(f: Family)
    ensures First(Block(f, 0, 0)) == 0 && Last(Block(f, 0, 0)) == Limit(f) - 1
  {
    var b: Net := Block(f, 0, 0);
    NoBits(b);
    BoundsFromBits(b, 0);
    FullWidth(f);
  }

  // ---------- what the checks decide ----------

  /** The two end points decide containment of whole blocks, in both directions. */
  lemma SubsetMeaning(outer: Net, inner: Net)
    ensures SubsetCheck(outer, inner) <==> Subset(outer, inner)
  {
    var lo, hi := Address(inner.family, First(inner)), Address(inner.family, Last(inner));
    ContainsIffBetween(inner, lo);
    ContainsIffBetween(inner, hi);
    ContainsIffBetween(outer, lo);
    ContainsIffBetween(outer, hi);
    forall x | SubsetCheck(outer, inner) && Contains(inner, x) ensures Contains(outer, x) {
      ContainsIffBetween(inner, x);
      ContainsIffBetween(outer, x);
    }
  }

  /** Testing two base addresses decides whether the blocks share any address. */
  lemma OverlapMeaning(a: Net, b: Net)
    ensures OverlapCheck(a, b) <==> !Disjoint(a, b)
  {
    var firstA, firstB := Address(a.family, First(a)), Address(b.family, First(b));
    ContainsIffBetween(a, firstA);
    ContainsIffBetween(b, firstA);
    ContainsIffBetween(a, firstB);
    ContainsIffBetween(b, firstB);
    forall x | Contains(a, x) && Contains(b, x) ensures OverlapCheck(a, b) {
      ContainsIffBetween(a, x);
      ContainsIffBetween(b, x);
    }
  }

  /** Network bits of a shorter prefix are determined by those of a longer one. */
  lemma CoarserBits(small: Net, big: Net, x: nat)
    requires small.family == big.family && big.prefix <= small.prefix
    requires Shift(x, HostBits(small)) == NetworkBits(small)
    ensures Shift(x, HostBits(big)) == Shift(small.address, HostBits(big))
  {
    var j := small.prefix - big.prefix;
    ShiftTwice(x, HostBits(small), j);
    ShiftTwice(small.address, HostBits(small), j);
  }

  /** Two blocks are disjoint, or the one with the longer prefix lies inside the other. */
  lemma NestedOrDisjoint(small: Net, big: Net)
    requires big.prefix <= small.prefix
    ensures Disjoint(small, big) || Subset(big, small)
  {
    if c :| Contains(small, c) && Contains(big, c) {
      CoarserBits(small, big, c.value);
      forall x | Contains(small, x) ensures Contains(big, x) {
        CoarserBits(small, big, x.value);
      }
    }
  }

  // ---------- private ranges (section 3 of RFC 1918) ----------

  function Private10(): Net {
    Block(IPv4, 8, 10 * 0x100_0000)
  }

  function Private172(): Net {
    Block(IPv4, 12, 0xAC1 * 0x10_0000)
  }

  function Private192(): Net {
    Block(IPv4, 16, 0xC0A8 * 0x1_0000)
  }

  function PrivateRanges(): seq<Net> {
    [Private10(), Private172(), Private192()]
  }

  /** The validator's test: the first address of the worker network lies in a private range. */
  predicate BaseIsPrivate(b: Net) {
    exists r | r in PrivateRanges() :: Contains(r, Address(b.family, First(b)))
  }

  ghost predicate AllPrivate(b: Net) {
    forall x :: Contains(b, x) ==> exists r | r in PrivateRanges() :: Contains(r, x)
  }

  /** The four blocks the base address test lets through although they reach beyond the private ranges. */
  predicate TooWide(b: Net) {
    && b.family == IPv4
    && ( (b.prefix == 7 && First(b) == 10 * 0x100_0000)
      || (b.prefix in {13, 14, 15} && First(b) == 0xC0A8 * 0x1_0000))
  }

  lemma BitsFromBounds(b: Net, q: nat)
    requires Unshift(q, HostBits(b)) <= b.address < Unshift(q + 1, HostBits(b))
    ensures NetworkBits(b) == q
  {
    ShiftIff(b.address, q, HostBits(b));
  }

  lemma RangeNumbers()
    ensures NetworkBits(Private10()) == 10 && First(Private10()) == 10 * 0x100_0000
      && End(Private10()) == 11 * 0x100_0000
    ensures NetworkBits(Private172()) == 0xAC1 && First(Private172()) == 0xAC1 * 0x10_0000
      && End(Private172()) == 0xAC2 * 0x10_0000
    ensures NetworkBits(Private192()) == 0xC0A8 && First(Private192()) == 0xC0A8 * 0x1_0000
      && End(Private192()) == 0xC0A9 * 0x1_0000
  {
    UnshiftValues(10);
    UnshiftValues(11);
    UnshiftValues(0xAC1);
    UnshiftValues(0xAC2);
    UnshiftValues(0xC0A8);
    UnshiftValues(0xC0A9);
    BitsFromBounds(Private10(), 10);
    BitsFromBounds(Private172(), 0xAC1);
    BitsFromBounds(Private192(), 0xC0A8);
  }

  lemma LongPrefixStaysInside(b: Net, r: Net)
    requires Contains(r, Address(b.family, First(b))) && r.prefix <= b.prefix
    ensures Subset(r, b)
  {
    FirstOfFirst(b);
    NestedOrDisjoint(b, r);
  }

  /** A block wider than r by j bits or more that starts inside r starts with r, and r's network bits end in j zeros. */
  lemma WideBase(b: Net, r: Net, j: nat)
    requires b.prefix + j <= r.prefix
    requires Contains(r, Address(b.family, First(b)))
    ensures NetworkBits(r) == Unshift(Unshift(NetworkBits(b), r.prefix - b.prefix - j), j)
    ensures First(b) == First(r)
  {
    var d := r.prefix - b.prefix;
    var q := NetworkBits(b);
    UnshiftTwice(q, d, HostBits(r));
    UnshiftTwice(q, d - j, j);
    UnshiftGrows(Unshift(q, d), HostBits(r));
    ShiftIff(First(b), Unshift(q, d), HostBits(r));
  }

  /** Only four blocks start in a private range with a prefix shorter than the range's. */
  lemma WideOnlyIfTooWide(b: Net, r: Net)
    requires r in PrivateRanges() && b.prefix < r.prefix
    requires Contains(r, Address(b.family, First(b)))
    ensures TooWide(b) && First(b) == First(r)
  {
    RangeNumbers();
    WideBase(b, r, 1);
    Unshift4(Unshift(NetworkBits(b), r.prefix - b.prefix - 1));
    if r == Private10() {
      if b.prefix < 7 {
        WideBase(b, r, 2);
      }
    } else if r == Private192() {
      if b.prefix < 13 {
        WideBase(b, r, 4);
      }
    }
  }

  /** A wider block that starts with r contains the address right after r. */
  lemma WiderGoesOn(b: Net, r: Net)
    requires b.family == r.family && b.prefix < r.prefix && First(b) == First(r)
    ensures Contains(b, Address(b.family, End(r)))
  {
    var d, q := r.prefix - b.prefix, NetworkBits(b);
    UnshiftTwice(q, d, HostBits(r));
    UnshiftTwice(q + 1, d, HostBits(r));
    UnshiftGrows(2 * q, d - 1);
    UnshiftGrows(2 * q + 1, d - 1);
    FirstOfFirst(r);
    UnshiftGrows(Unshift(q, d), HostBits(r));
    ShiftIff(First(b), Unshift(q, d), HostBits(r));
    assert NetworkBits(r) == Unshift(q, d);
    UnshiftGrows(NetworkBits(r), HostBits(r));
    UnshiftGrows(NetworkBits(r) + 1, HostBits(r));
    UnshiftMonotone(NetworkBits(r) + 2, Unshift(q + 1, d), HostBits(r));
    ContainsIffBetween(b, Address(b.family, End(r)));
  }

  /** The address right after a private range is not private. */
  lemma JustBeyond(r: Net)
    requires r in PrivateRanges()
    ensures forall q | q in PrivateRanges() :: !Contains(q, Address(IPv4, End(r)))
  {
    RangeNumbers();
    forall q | q in PrivateRanges() ensures !Contains(q, Address(IPv4, End(r))) {
      ContainsIffBetween(q, Address(IPv4, End(r)));
    }
  }

  lemma NotTooWide(b: Net, r: Net)
    requires r in PrivateRanges() && Contains(r, Address(b.family, First(b))) && b.prefix >= r.prefix
    ensures !TooWide(b)
  {
    RangeNumbers();
    ContainsIffBetween(r, Address(b.family, First(b)));
  }

  /** An accepted base address makes the whole block private exactly when the prefix is at least as long as
      that of the range it starts in; the four TooWide blocks are all the exceptions. */
  lemma PrivateExactly(b: Net, r: Net)
    requires r in PrivateRanges() && Contains(r, Address(b.family, First(b)))
    ensures AllPrivate(b) <==> b.prefix >= r.prefix
    ensures AllPrivate(b) <==> !TooWide(b)
  {
    if b.prefix >= r.prefix {
      LongPrefixStaysInside(b, r);
      NotTooWide(b, r);
    } else {
      WideOnlyIfTooWide(b, r);
      WiderGoesOn(b, r);
      JustBeyond(r);
    }
  }

  /** The four blocks do pass, and they are not private throughout. */
  lemma TooWidePasses(b: Net)
    requires TooWide(b)
    ensures BaseIsPrivate(b) && !AllPrivate(b)
  {
    var first := Address(b.family, First(b));
    RangeNumbers();
    ContainsIffBetween(Private10(), first);
    ContainsIffBetween(Private192(), first);
    var r := if b.prefix == 7 then Private10() else Private192();
    assert r in PrivateRanges() && Contains(r, first);
    PrivateExactly(b, r);
  }

  /** So the test lets through the private blocks and these four, and nothing else. */
  lemma PassesIff(b: Net)
    ensures BaseIsPrivate(b) <==> AllPrivate(b) || TooWide(b)
  {
    if BaseIsPrivate(b) {
      var r :| r in PrivateRanges() && Contains(r, Address(b.family, First(b)));
      PrivateExactly(b, r);
    } else {
      FirstOfFirst(b);
      assert Contains(b, Address(b.family, First(b)));
      if TooWide(b) {
        TooWidePasses(b);
      }
    }
  }

  lemma SlashSevenEnds(b: Net)
    requires b == Block(IPv4, 7, 10 * 0x100_0000)
    ensures First(b) == 10 * 0x100_0000 && Last(b) == 12 * 0x100_0000 - 1
  {
    UnshiftValues(10);
    UnshiftValues(12);
    UnshiftTwice(5, 1, 24);
    UnshiftTwice(6, 1, 24);
    Unshift4(5);
    Unshift4(6);
    BitsFromBounds(b, 5);
    BoundsFromBits(b, 5);
  }

  /** 10.0.0.0/7 passes the base address test, yet 11.0.0.0 belongs to it. */
  lemma SlashSevenPasses()
    ensures
      var b: Net := Block(IPv4, 7, 10 * 0x100_0000);
      Canonical(b) && BaseIsPrivate(b) && Contains(b, Address(IPv4, 11 * 0x100_0000)) && !AllPrivate(b)
  {
    var b: Net := Block(IPv4, 7, 10 * 0x100_0000);
    SlashSevenEnds(b);
    ContainsIffBetween(b, Address(IPv4, 11 * 0x100_0000));
    TooWidePasses(b);
  }

  /** And so do 192.168.0.0/13, /14 and /15, each written with its first address. */
  lemma WideBlocksPass(prefix: nat)
    requires prefix in {13, 14, 15}
    ensures
      var b: Net := Block(IPv4, prefix, 0xC0A8 * 0x1_0000);
      Canonical(b) && TooWide(b) && BaseIsPrivate(b) && !AllPrivate(b)
  {
    var b: Net := Block(IPv4, prefix, 0xC0A8 * 0x1_0000);
    var j := 16 - prefix;
    var q := if j == 1 then 0x6054 else if j == 2 then 0x302A else 0x1815;
    Unshift4(q);
    assert Unshift(q, 3) == Unshift(2 * q, 2) == 8 * q by {
      Unshift4(2 * q);
    }
    UnshiftTwice(q, j, 16);
    UnshiftValues(0xC0A8);
    UnshiftGrows(q, HostBits(b));
    BitsFromBounds(b, q);
    TooWidePasses(b);
  }
}
