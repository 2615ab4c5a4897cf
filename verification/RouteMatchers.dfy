/** The CIDR matcher, which looks at no more than four sorted ranges, and the
    domain suffix walk. */
module RouteMatchers {
  import opened Bytes

  const WINDOW := 4

  datatype Ip = Ip(v6: bool, addr: nat)

  /** An address with a prefix length.  Host bits need not be zero. */
  datatype Net = Net(v6: bool, addr: nat, prefix: nat) {
    predicate Valid() {
      prefix <= Bits(v6)
    }
  }

  function Bits(v6: bool): nat {
    if v6 then 128 else 32
  }

  /** Number of addresses, section 3.1 of RFC 4632. */
  function Size(n: Net): (s: nat)
    requires n.Valid()
    ensures s >= 1
  {
    Pow2(Bits(n.v6) - n.prefix)
  }

  lemma ModBound(a: nat, s: nat)
    requires s >= 1
    ensures 0 <= a % s < s && a % s <= a
  {
    if a < s {
      assert a % s == a;
    }
  }

  function Network(n: Net): (a: nat)
    requires n.Valid()
    ensures a <= n.addr < a + Size(n)
  {
    ModBound(n.addr, Size(n));
    n.addr - n.addr % Size(n)
  }

  /** The address is its own network address. */
  predicate Canonical(n: Net) {
    n.Valid() && Network(n) == n.addr
  }

  predicate Contains(n: Net, ip: Ip)
    requires n.Valid()
  {
    n.v6 == ip.v6 && Network(n) <= ip.addr <= Network(n) + Size(n) - 1
  }

  /** Family, then address, then prefix length. */
  predicate Le(a: Net, b: Net) {
    if a.v6 != b.v6 then !a.v6
    else if a.addr != b.addr then a.addr < b.addr
    else a.prefix <= b.prefix
  }

  ghost predicate Sorted(ranges: seq<Net>) {
    && (forall i :: 0 <= i < |ranges| ==> ranges[i].Valid())
    && (forall i, j :: 0 <= i < j < |ranges| ==> Le(ranges[i], ranges[j]))
  }

  function Probe(ip: Ip): Net {
    Net(ip.v6, ip.addr, Bits(ip.v6))
  }

  /** The linear scan that the search stands for. */
  ghost predicate Scan(ranges: seq<Net>, ip: Ip)
    requires Sorted(ranges)
  {
    exists i :: 0 <= i < |ranges| && Contains(ranges[i], ip)
  }

  /** `idx` ranges sort at or below the probe. */
  ghost predicate SplitsAt(ranges: seq<Net>, ip: Ip, idx: nat) {
    && idx <= |ranges|
    && (forall i :: 0 <= i < idx ==> Le(ranges[i], Probe(ip)))
    && (forall i :: idx <= i < |ranges| ==> !Le(ranges[i], Probe(ip)))
  }

  /** Some range among the last few at or below the probe contains the address. */
  ghost predicate InWindow(ranges: seq<Net>, ip: Ip, idx: nat)
    requires Sorted(ranges) && idx <= |ranges|
  {
    exists i :: 0 <= i < idx && idx - i <= WINDOW && Contains(ranges[i], ip)
  }

  /** partition_point. */
  method PartitionPoint(ranges: seq<Net>, ip: Ip) returns (idx: nat)
    requires Sorted(ranges)
    ensures SplitsAt(ranges, ip, idx)
  {
    var lo, hi := 0, |ranges|;
    var probe := Probe(ip);
    while lo < hi
      invariant 0 <= lo <= hi <= |ranges|
      invariant forall i :: 0 <= i < lo ==> Le(ranges[i], probe)
      invariant forall i :: hi <= i < |ranges| ==> !Le(ranges[i], probe)
    {
      var mid := (lo + hi) / 2;
      if Le(ranges[mid], probe) {
        lo := mid + 1;
      } else {
        hi := mid;
      }
    }
    idx := lo;
  }

  /** IpMatcher::matches: the answer is that of the window, so a positive answer
      always means that some range contains the address. */
  method Matches(ranges: seq<Net>, ip: Ip) returns (found: bool, ghost idx: nat)
    requires Sorted(ranges)
    ensures SplitsAt(ranges, ip, idx)
    ensures found <==> InWindow(ranges, ip, idx)
    ensures found ==> Scan(ranges, ip)
  {
    idx := 0;
    if ranges == [] {
      return false, 0;
    }
    var at := PartitionPoint(ranges, ip);
    idx := at;
    var i := at;
    var low := if at >= WINDOW then at - WINDOW else 0;
    while i > low
      invariant low <= i <= at
      invariant forall j :: i <= j < at ==> !Contains(ranges[j], ip)
    {
      i := i - 1;
      if Contains(ranges[i], ip) {
        return true, idx;
      }
    }
    found := false;
  }

  // ----------------------------------------------------------- containment in bits

  /** Without its last `k` bits. */
  function Shifted(a: nat, k: nat): nat {
    if k == 0 then a else Shifted(a / 2, k - 1)
  }

  /** The `k`-th bit of an address, from the front. */
  function Bit(v6: bool, addr: nat, k: nat): nat
    requires k < Bits(v6)
  {
    Shifted(addr, Bits(v6) - 1 - k) % 2
  }

  /** An address that its family has. */
  predicate InFamily(v6: bool, addr: nat) {
    addr < if v6 then 0x1_0000_0000_0000_0000_0000_0000_0000_0000 else 0x1_0000_0000
  }

  lemma {:induction false} ShiftedTwice(a: nat, i: nat, j: nat)
    ensures Shifted(Shifted(a, i), j) == Shifted(a, i + j)
    decreases i
  {
    if i > 0 {
      ShiftedTwice(a / 2, i - 1, j);
    }
  }

  lemma HalvesAndSize(a: nat, half: nat)
    requires half >= 1
    ensures a / 2 / half == a / (2 * half)
  {
    var q, r := a / 2 / half, a / 2 % half;
    assert a / 2 == q * half + r;
    var rest := 2 * r + a % 2;
    assert a == q * (2 * half) + rest;
    QuotientIs(a, 2 * half, q, rest);
  }

  lemma QuotientIs(a: nat, d: nat, q: nat, rest: nat)
    requires d >= 1 && a == q * d + rest && rest < d
    ensures a / d == q && a % d == rest
  {
    var p, m := a / d, a % d;
    assert a == p * d + m;
    if p < q {
      Multiples(p + 1, q, d);
    } else if p > q {
      Multiples(q + 1, p, d);
    }
  }

  lemma Multiples(i: nat, j: nat, d: nat)
    requires i <= j
    ensures i * d <= j * d
  {
  }

  lemma {:induction false} ShiftedDivides(a: nat, k: nat)
    ensures Shifted(a, k) == a / Pow2(k)
    decreases k
  {
    if k > 0 {
      ShiftedDivides(a / 2, k - 1);
      HalvesAndSize(a, Pow2(k - 1));
    }
  }

  lemma {:induction false} Pow2Adds(i: nat, j: nat)
    ensures Pow2(i + j) == Pow2(i) * Pow2(j)
    decreases i
  {
    if i > 0 {
      Pow2Adds(i - 1, j);
      assert Pow2(i) * Pow2(j) == 2 * (Pow2(i - 1) * Pow2(j));
    }
  }

  lemma Squared(i: nat, size: nat)
    requires Pow2(i) == size
    ensures Pow2(2 * i) == size * size
  {
    Pow2Adds(i, i);
  }

  lemma FamilySizes()
    ensures Pow2(32) == 0x1_0000_0000 && Pow2(128) == 0x1_0000_0000_0000_0000_0000_0000_0000_0000
  {
    assert Pow2(4) == 16;
    Squared(4, 16);
    Squared(8, 0x100);
    Squared(16, 0x1_0000);
    Squared(32, 0x1_0000_0000);
    Squared(64, 0x1_0000_0000_0000_0000);
  }

  lemma NothingInFront(v6: bool, addr: nat)
    requires InFamily(v6, addr)
    ensures Shifted(addr, Bits(v6)) == 0
  {
    FamilySizes();
    ShiftedDivides(addr, Bits(v6));
    QuotientIs(addr, Pow2(Bits(v6)), 0, addr);
  }

  ghost predicate SameLow(x: nat, y: nat, n: nat) {
    forall j: nat :: j < n ==> Shifted(x, j) % 2 == Shifted(y, j) % 2
  }

  lemma {:induction false} SameBits(x: nat, y: nat, n: nat)
    requires Shifted(x, n) == Shifted(y, n)
    ensures x == y <==> SameLow(x, y, n)
    decreases n
  {
    if n > 0 {
      SameBits(x / 2, y / 2, n - 1);
      if SameLow(x, y, n) {
        forall j: nat | j < n - 1
          ensures Shifted(x / 2, j) % 2 == Shifted(y / 2, j) % 2
        {
          assert Shifted(x, j + 1) == Shifted(x / 2, j) && Shifted(y, j + 1) == Shifted(y / 2, j);
        }
        assert Shifted(x, 0) == x && Shifted(y, 0) == y;
      }
    }
  }

  /** An address is between the first and the last of a range exactly when dividing by
      its size gives the same. */
  lemma SameBlock(a: nat, b: nat, size: nat)
    requires size >= 1
    ensures a - a % size <= b <= a - a % size + size - 1 <==> a / size == b / size
  {
    var q := a / size;
    assert a - a % size == q * size;
    if a / size == b / size {
      assert b == q * size + b % size;
    } else if q * size <= b <= q * size + size - 1 {
      QuotientIs(b, size, q, b - q * size);
    }
  }

  /** The first `prefix` bits agree. */
  ghost predicate SamePrefix(n: Net, ip: Ip)
    requires n.Valid()
  {
    n.v6 == ip.v6 && forall k: nat :: k < n.prefix ==> Bit(n.v6, n.addr, k) == Bit(ip.v6, ip.addr, k)
  }

  lemma PrefixIsLow(n: Net, ip: Ip)
    requires n.Valid() && n.v6 == ip.v6
    ensures var host := Bits(n.v6) - n.prefix;
            SamePrefix(n, ip) <==> SameLow(Shifted(n.addr, host), Shifted(ip.addr, host), n.prefix)
  {
    var host := Bits(n.v6) - n.prefix;
    forall j: nat | j < n.prefix
      ensures Shifted(Shifted(n.addr, host), j) % 2 == Bit(n.v6, n.addr, n.prefix - 1 - j)
      ensures Shifted(Shifted(ip.addr, host), j) % 2 == Bit(n.v6, ip.addr, n.prefix - 1 - j)
    {
      ShiftedTwice(n.addr, host, j);
      ShiftedTwice(ip.addr, host, j);
    }
    if SameLow(Shifted(n.addr, host), Shifted(ip.addr, host), n.prefix) {
      forall k: nat | k < n.prefix
        ensures Bit(n.v6, n.addr, k) == Bit(ip.v6, ip.addr, k)
      {
        var j := n.prefix - 1 - k;
        assert Shifted(Shifted(n.addr, host), j) % 2 == Bit(n.v6, n.addr, n.prefix - 1 - j);
      }
    }
  }

  /** A range contains exactly the addresses of its family that agree with it in the
      first `prefix` bits, whatever its own host bits are. */
  lemma ContainsIff(n: Net, ip: Ip)
    requires n.Valid() && InFamily(n.v6, n.addr) && InFamily(ip.v6, ip.addr)
    ensures Contains(n, ip) <==> SamePrefix(n, ip)
  {
    if n.v6 == ip.v6 {
      var host := Bits(n.v6) - n.prefix;
      var x, y := Shifted(n.addr, host), Shifted(ip.addr, host);
      SameBlock(n.addr, ip.addr, Size(n));
      ShiftedDivides(n.addr, host);
      ShiftedDivides(ip.addr, host);
      NothingInFront(n.v6, n.addr);
      NothingInFront(n.v6, ip.addr);
      ShiftedTwice(n.addr, host, n.prefix);
      ShiftedTwice(ip.addr, host, n.prefix);
      SameBits(x, y, n.prefix);
      PrefixIsLow(n, ip);
    }
  }

  /** The ends of the scale: a prefix of no bits takes in the whole family, and one of
      32 or 128 bits only its own address. */
  lemma WholeOrSingle(v6: bool, addr: nat, ip: Ip)
    requires InFamily(v6, addr) && InFamily(ip.v6, ip.addr)
    ensures Contains(Net(v6, addr, 0), ip) <==> ip.v6 == v6
    ensures Contains(Net(v6, addr, if v6 then 128 else 32), ip) <==> ip == Ip(v6, addr)
  {
    ContainsIff(Net(v6, addr, 0), ip);
    assert Pow2(0) == 1;
  }

  /** And a range is canonical exactly when all bits behind its prefix are zero. */
  lemma CanonicalIff(n: Net)
    requires n.Valid()
    ensures Canonical(n) <==> forall k: nat :: n.prefix <= k < Bits(n.v6) ==> Bit(n.v6, n.addr, k) == 0
  {
    var host := Bits(n.v6) - n.prefix;
    var base := Network(n);
    ShiftedDivides(n.addr, host);
    ShiftedDivides(base, host);
    SameBlock(n.addr, base, Size(n));
    SameBits(n.addr, base, host);
    NetworkIsZero(n);
    if forall k: nat :: n.prefix <= k < Bits(n.v6) ==> Bit(n.v6, n.addr, k) == 0 {
      forall j: nat | j < host
        ensures Shifted(n.addr, j) % 2 == 0
      {
        assert Bit(n.v6, n.addr, Bits(n.v6) - 1 - j) == 0;
      }
    }
  }

  lemma {:induction false} ZeroBits(q: nat, h: nat, j: nat)
    requires j < h
    ensures Shifted(q * Pow2(h), j) % 2 == 0
    decreases h
  {
    var half := q * Pow2(h - 1);
    assert q * Pow2(h) == 2 * half;
    if j > 0 {
      assert q * Pow2(h) / 2 == half;
      ZeroBits(q, h - 1, j - 1);
    }
  }

  lemma NetworkIsZero(n: Net)
    requires n.Valid()
    ensures forall j: nat :: j < Bits(n.v6) - n.prefix ==> Shifted(Network(n), j) % 2 == 0
  {
    var host := Bits(n.v6) - n.prefix;
    var q := n.addr / Size(n);
    assert Network(n) == q * Size(n);
    forall j: nat | j < host
      ensures Shifted(Network(n), j) % 2 == 0
    {
      ZeroBits(q, host, j);
    }
  }

  // ---------------------------------------------------- when it equals the scan

  /** A canonical range that contains an address sorts at or below its probe. */
  lemma CoveringIsBelow(ranges: seq<Net>, ip: Ip, idx: nat, i: nat)
    requires Sorted(ranges) && SplitsAt(ranges, ip, idx)
    requires i < |ranges| && Canonical(ranges[i]) && Contains(ranges[i], ip)
    ensures i < idx
  {
    assert Le(ranges[i], Probe(ip));
  }

  /** For canonical ranges, an address that some range covers is found exactly
      when fewer than four ranges sort between the last covering one and the
      probe. */
  lemma FoundIff(ranges: seq<Net>, ip: Ip, idx: nat, last: nat)
    requires Sorted(ranges) && SplitsAt(ranges, ip, idx)
    requires forall i :: 0 <= i < |ranges| ==> Canonical(ranges[i])
    requires last < |ranges| && Contains(ranges[last], ip)
    requires forall i :: last < i < |ranges| ==> !Contains(ranges[i], ip)
    ensures last < idx
    ensures InWindow(ranges, ip, idx) <==> idx - last <= WINDOW
  {
    CoveringIsBelow(ranges, ip, idx, last);
  }

  /** No range reaches as far as the start of the fourth range after it. */
  ghost predicate ShallowNesting(ranges: seq<Net>)
    requires Sorted(ranges)
  {
    && (forall i :: 0 <= i < |ranges| ==> Canonical(ranges[i]))
    && (forall i, j :: 0 <= i && j == i + WINDOW && j < |ranges| ==>
          !Contains(ranges[i], Ip(ranges[j].v6, ranges[j].addr)))
  }

  lemma CoveringIsInWindow(ranges: seq<Net>, ip: Ip, idx: nat, i: nat)
    requires Sorted(ranges) && SplitsAt(ranges, ip, idx) && ShallowNesting(ranges)
    requires i < |ranges| && Contains(ranges[i], ip)
    ensures i < idx && idx - i <= WINDOW
  {
    CoveringIsBelow(ranges, ip, idx, i);
    if idx - i > WINDOW {
      var j := i + WINDOW;
      assert Le(ranges[i], ranges[j]) && Le(ranges[j], Probe(ip));
      assert Contains(ranges[i], Ip(ranges[j].v6, ranges[j].addr));
      assert false;
    }
  }

  /** For such ranges the search is the linear scan, for every address. */
  lemma SearchIsScan(ranges: seq<Net>, ip: Ip, idx: nat)
    requires Sorted(ranges) && SplitsAt(ranges, ip, idx) && ShallowNesting(ranges)
    ensures InWindow(ranges, ip, idx) <==> Scan(ranges, ip)
  {
    if Scan(ranges, ip) {
      var i :| 0 <= i < |ranges| && Contains(ranges[i], ip);
      CoveringIsInWindow(ranges, ip, idx, i);
    }
  }

  /** The last of the ranges that cover an address lies below all that is searched. */
  ghost predicate Hidden(ranges: seq<Net>, ip: Ip, i: nat)
    requires Sorted(ranges)
  {
    && i + WINDOW < |ranges| && Contains(ranges[i], ip) && Le(ranges[i + WINDOW], Probe(ip))
    && (forall j :: i < j < |ranges| ==> !Contains(ranges[j], ip))
  }

  /** The search is the linear scan for every address. */
  ghost predicate SearchesAll(ranges: seq<Net>)
    requires Sorted(ranges)
  {
    forall ip: Ip, idx: nat :: SplitsAt(ranges, ip, idx) ==> (InWindow(ranges, ip, idx) <==> Scan(ranges, ip))
  }

  lemma {:induction false} LastCovering(ranges: seq<Net>, ip: Ip, n: nat) returns (i: nat)
    requires Sorted(ranges) && n <= |ranges| && exists j :: 0 <= j < n && Contains(ranges[j], ip)
    ensures i < n && Contains(ranges[i], ip) && forall j :: i < j < n ==> !Contains(ranges[j], ip)
    decreases n
  {
    i := n - 1;
    if !Contains(ranges[i], ip) {
      i := LastCovering(ranges, ip, n - 1);
    }
  }

  lemma {:induction false} SplitExists(ranges: seq<Net>, ip: Ip, n: nat) returns (idx: nat)
    requires Sorted(ranges) && n <= |ranges| && forall i :: n <= i < |ranges| ==> !Le(ranges[i], Probe(ip))
    ensures SplitsAt(ranges, ip, idx)
    decreases n
  {
    if n == 0 || Le(ranges[n - 1], Probe(ip)) {
      idx := n;
    } else {
      idx := SplitExists(ranges, ip, n - 1);
    }
  }

  /** For canonical ranges the search is the linear scan, for every address, if and
      only if no address is hidden: covered by a range with a fourth one after it at
      or below the address, and by none later. */
  lemma SearchIsScanIff(ranges: seq<Net>)
    requires Sorted(ranges) && forall i :: 0 <= i < |ranges| ==> Canonical(ranges[i])
    ensures SearchesAll(ranges) <==> !exists ip, i :: Hidden(ranges, ip, i)
  {
    if ip: Ip, i: nat :| Hidden(ranges, ip, i) {
      var idx := SplitExists(ranges, ip, |ranges|);
      FoundIff(ranges, ip, idx, i);
      assert i + WINDOW < idx;
      assert Scan(ranges, ip) && !InWindow(ranges, ip, idx);
    } else {
      forall ip: Ip, idx: nat | SplitsAt(ranges, ip, idx)
        ensures InWindow(ranges, ip, idx) <==> Scan(ranges, ip)
      {
        if Scan(ranges, ip) {
          var i := LastCovering(ranges, ip, |ranges|);
          FoundIff(ranges, ip, idx, i);
          assert !Hidden(ranges, ip, i);
        }
      }
    }
  }

  ghost predicate Disjoint(ranges: seq<Net>)
    requires Sorted(ranges)
  {
    forall i, j, ip: Ip :: 0 <= i < j < |ranges| && Contains(ranges[i], ip) ==> !Contains(ranges[j], ip)
  }

  /** In particular for canonical ranges that do not overlap. */
  lemma DisjointIsScan(ranges: seq<Net>, ip: Ip, idx: nat)
    requires Sorted(ranges) && SplitsAt(ranges, ip, idx) && Disjoint(ranges)
    requires forall i :: 0 <= i < |ranges| ==> Canonical(ranges[i])
    ensures InWindow(ranges, ip, idx) <==> Scan(ranges, ip)
  {
    forall i, j | 0 <= i && j == i + WINDOW && j < |ranges|
      ensures !Contains(ranges[i], Ip(ranges[j].v6, ranges[j].addr))
    {
      assert Contains(ranges[j], Ip(ranges[j].v6, ranges[j].addr));
    }
    SearchIsScan(ranges, ip, idx);
  }

  /** Four addresses listed inside a range hide the rest of it: for every
      canonical range with room for them, the search misses an address that the
      scan finds. */
  lemma NestedRangesHide(r: Net) returns (ranges: seq<Net>, ip: Ip)
    requires Canonical(r) && Size(r) >= 6
    ensures Sorted(ranges) && |ranges| == 5 && ranges[0] == r && Scan(ranges, ip)
    ensures forall idx :: SplitsAt(ranges, ip, idx) ==> !InWindow(ranges, ip, idx)
  {
    ranges, ip := [r, Host(r, 1), Host(r, 2), Host(r, 3), Host(r, 4)], Ip(r.v6, r.addr + 5);
    assert Sorted(ranges);
    assert Contains(ranges[0], ip);
    assert Le(ranges[4], Probe(ip));
    assert Pow2(0) == 1;
    assert forall k :: 1 <= k < 5 ==> Size(ranges[k]) == 1;
  }

  /** A single address inside a range. */
  function Host(r: Net, k: nat): Net {
    Net(r.v6, r.addr + k, Bits(r.v6))
  }

  /** A single range is searched correctly, for all addresses, exactly when its
      host bits are zero. */
  lemma SingleRangeIff(r: Net)
    requires r.Valid()
    ensures Canonical(r) <==>
            forall ip: Ip, idx: nat :: SplitsAt([r], ip, idx) ==> (InWindow([r], ip, idx) <==> Scan([r], ip))
  {
    if Canonical(r) {
      forall ip: Ip, idx: nat | SplitsAt([r], ip, idx)
        ensures InWindow([r], ip, idx) <==> Scan([r], ip)
      {
        SearchIsScan([r], ip, idx);
      }
    } else {
      var ip := Ip(r.v6, Network(r));
      assert Contains([r][0], ip);
      assert SplitsAt([r], ip, 0);
      assert !InWindow([r], ip, 0) && Scan([r], ip);
    }
  }

  // ------------------------------------------------------------ the suffix walk

  /** A position where a label of the domain begins. */
  predicate LabelStart(domain: string, i: int) {
    0 <= i < |domain| && (i == 0 || domain[i - 1] == '.')
  }

  /** The next dot at or after `start`. */
  method FindDot(domain: string, start: nat) returns (dot: Option<nat>)
    requires start <= |domain|
    ensures dot.None? ==> forall i :: start <= i < |domain| ==> domain[i] != '.'
    ensures dot.Some? ==> start <= dot.value < |domain| && domain[dot.value] == '.'
                          && forall i :: start <= i < dot.value ==> domain[i] != '.'
  {
    var i := start;
    while i < |domain|
      invariant start <= i <= |domain|
      invariant forall j :: start <= j < i ==> domain[j] != '.'
    {
      if domain[i] == '.' {
        return Some(i);
      }
      i := i + 1;
    }
    return None;
  }

  /** The suffix rule: some suffix that begins at a label is listed.  Suffixes that
      begin in the middle of a label never match. */
  method SuffixMatches(suffixes: set<string>, domain: string) returns (found: bool)
    ensures found <==> exists i :: LabelStart(domain, i) && domain[i..] in suffixes
  {
    var start := 0;
    while start < |domain|
      invariant 0 <= start <= |domain|
      invariant start < |domain| ==> LabelStart(domain, start)
      invariant forall i :: LabelStart(domain, i) && i < start ==> domain[i..] !in suffixes
      decreases |domain| - start
    {
      if domain[start..] in suffixes {
        return true;
      }
      var dot := FindDot(domain, start);
      match dot {
        case Some(at) => start := at + 1;
        case None =>
          assert forall i :: LabelStart(domain, i) && i > start ==> domain[i - 1] != '.';
          return false;
      }
    }
    return false;
  }
}
