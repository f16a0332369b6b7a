/** CIDR expansion over big-endian address bytes, incremented in place. Parsing the text form and printing
    addresses are left to the caller: an address is its bytes, a block is an address and a prefix length. */
module Cidr {
  type Byte = x: int | 0 <= x < 256

  function Pow2(n: nat): (p: nat)
    ensures p > 0
  {
    if n == 0 then 1 else 2 * Pow2(n - 1)
  }

  function Value(a: seq<Byte>): nat {
    if a == [] then 0 else Value(a[..|a| - 1]) * 256 + a[|a| - 1]
  }

  lemma {:induction false} Pow2Add(m: nat, n: nat)
    ensures Pow2(m + n) == Pow2(m) * Pow2(n)
  {
    if m > 0 {
      Pow2Add(m - 1, n);
    }
  }

  lemma Pow2Eight()
    ensures Pow2(8) == 256
  {
    assert Pow2(4) == 16;
  }

  lemma Pow2Bytes(n: nat)
    requires n > 0
    ensures Pow2(8 * n) == Pow2(8 * (n - 1)) * 256
  {
    Pow2Add(8 * (n - 1), 8);
    Pow2Eight();
  }

  lemma {:induction false} ValueRange(a: seq<Byte>)
    ensures Value(a) < Pow2(8 * |a|)
  {
    if a != [] {
      ValueRange(a[..|a| - 1]);
      Pow2Bytes(|a|);
    }
  }

  lemma {:induction false} ValueInjective(a: seq<Byte>, b: seq<Byte>)
    requires |a| == |b| && Value(a) == Value(b)
    ensures a == b
  {
    if a != [] {
      var n := |a| - 1;
      ValueInjective(a[..n], b[..n]);
      assert a == a[..n] + [a[n]] && b == b[..n] + [b[n]];
    }
  }

  // ----- incIP -----

  /** The specification of one increment: carry from the last byte. */
  function Increment(a: seq<Byte>): seq<Byte> {
    if a == [] then []
    else
      var n := |a| - 1;
      if a[n] == 255 then Increment(a[..n]) + [0] else a[..n] + [a[n] + 1]
  }

  /** One more than v, starting over at the end of m addresses. */
  function Next(v: nat, m: nat): nat {
    if v + 1 == m then 0 else v + 1
  }

  lemma NextIsModular(v: nat, m: nat)
    requires v < m
    ensures Next(v, m) == (v + 1) % m
  {
    if v + 1 == m {
      assert m % m == 0;
    }
  }

  lemma ValueSnoc(a: seq<Byte>, x: Byte)
    ensures Value(a + [x]) == Value(a) * 256 + x
  {
    assert (a + [x])[..|a|] == a;
  }

  lemma NextByte(rest: nat, x: Byte, m: nat)
    requires rest < m
    ensures Next(rest * 256 + x, m * 256) == if x == 255 then Next(rest, m) * 256 else rest * 256 + x + 1
  {
  }

  /** It adds one, modulo the number of addresses. */
  lemma {:induction false} IncrementAddsOne(a: seq<Byte>)
    ensures |Increment(a)| == |a| && Value(Increment(a)) == Next(Value(a), Pow2(8 * |a|))
  {
    if a == [] {
      assert Pow2(0) == 1;
    } else {
      var n := |a| - 1;
      ValueRange(a[..n]);
      Pow2Bytes(|a|);
      NextByte(Value(a[..n]), a[n], Pow2(8 * n));
      IncrementAddsOne(a[..n]);
      if a[n] == 255 {
        ValueSnoc(Increment(a[..n]), 0);
      } else {
        ValueSnoc(a[..n], a[n] + 1);
      }
    }
  }

  /** Bytes up to position i are still the old ones, later ones carry. */
  ghost predicate Carried(before: seq<Byte>, now: seq<Byte>, i: int)
    requires |now| == |before| && -1 <= i < |now|
  {
    now[..i + 1] == before[..i + 1] && Increment(before) == Increment(before[..i + 1]) + now[i + 1..]
  }

  lemma IncrementAt(before: seq<Byte>, i: nat)
    requires i < |before|
    ensures Increment(before[..i + 1])
         == if before[i] == 255 then Increment(before[..i]) + [0] else before[..i] + [before[i] + 1]
  {
    assert before[..i + 1][..i] == before[..i];
  }

  lemma Rejoin(head: seq<Byte>, x: Byte, tail: seq<Byte>, now: seq<Byte>, i: nat)
    requires i < |now| && tail == now[i + 1..]
    ensures (head + [x]) + tail == head + now[i := x][i..]
  {
    assert now[i := x][i..] == [x] + tail;
  }

  lemma CarryStep(before: seq<Byte>, now: seq<Byte>, i: nat, next: Byte)
    requires |now| == |before| && i < |now| && Carried(before, now, i)
    requires next == if now[i] == 255 then 0 else now[i] + 1
    ensures if next == 0 then Carried(before, now[i := next], i - 1) else now[i := next] == Increment(before)
  {
    assert now[..i + 1][i] == before[..i + 1][i];
    IncrementAt(before, i);
    Rejoin(if next == 0 then Increment(before[..i]) else before[..i], next, now[i + 1..], now, i);
    assert now[..i] == now[..i + 1][..i] == before[..i + 1][..i] == before[..i];
    var after := now[i := next];
    assert after[..i] == before[..i];
    if next != 0 {
      assert after == after[..i] + after[i..];
    }
  }

  method IncIP(ip: array<Byte>)
    modifies ip
    ensures ip[..] == Increment(old(ip[..]))
    ensures Value(ip[..]) == Next(Value(old(ip[..])), Pow2(8 * ip.Length))
  {
    ghost var before := ip[..];
    IncrementAddsOne(before);
    var i := ip.Length - 1;
    assert before[..i + 1] == before;
    while i >= 0
      invariant -1 <= i < ip.Length && Carried(before, ip[..], i)
      decreases i
    {
      var next := if ip[i] == 255 then 0 else ip[i] + 1;
      CarryStep(before, ip[..], i, next);
      ghost var now := ip[..];
      ip[i] := next;
      assert ip[..] == now[i := next];
      if next != 0 {
        return;
      }
      i := i - 1;
    }
    assert ip[..] == ip[0..];
  }

  // ----- masks -----

  /** How many of the bits of byte i lie beyond the prefix. */
  function HostBits(i: nat, prefix: nat): (k: nat)
    ensures k <= 8
  {
    if prefix <= 8 * i then 8 else if prefix >= 8 * (i + 1) then 0 else 8 * (i + 1) - prefix
  }

  /** v with its part below p dropped. */
  function RoundDown(v: nat, p: nat): nat
    requires p > 0
  {
    v / p * p
  }

  lemma Times(a: nat, b: nat, c: nat)
    requires a <= b
    ensures a * c <= b * c
  {
  }

  /** The multiple of p that v lies at or just above. */
  lemma RoundDownIff(v: nat, p: nat, q: nat)
    requires p > 0
    ensures RoundDown(v, p) == q * p <==> q * p <= v < q * p + p
    ensures RoundDown(v, p) <= v < RoundDown(v, p) + p
  {
    var k := v / p;
    assert v == k * p + v % p;
    if k < q {
      Times(k + 1, q, p);
      assert (k + 1) * p == k * p + p;
    } else if q < k {
      Times(q + 1, k, p);
      assert (q + 1) * p == q * p + p;
    }
  }

  /** The bitwise "and" of a byte with a mask whose last k bits are zero. */
  function MaskByte(x: Byte, k: nat): Byte {
    RoundDownIff(x, Pow2(k), 0);
    RoundDown(x, Pow2(k))
  }

  function Masked(a: seq<Byte>, prefix: nat): seq<Byte> {
    seq(|a|, i requires 0 <= i < |a| => MaskByte(a[i], HostBits(i, prefix)))
  }

  lemma RoundLow(v: nat, x: Byte, p: nat, q: nat)
    requires p > 0 && p * q == 256
    ensures RoundDown(v * 256 + x, p) == v * 256 + RoundDown(x, p)
  {
    var k := x / p;
    RoundDownIff(x, p, k);
    assert v * 256 == v * (q * p) == v * q * p;
    assert v * q * p + k * p == (v * q + k) * p;
    RoundDownIff(v * 256 + x, p, v * q + k);
  }

  lemma RoundHigh(v: nat, x: Byte, p: nat)
    requires p > 0
    ensures RoundDown(v * 256 + x, p * 256) == RoundDown(v, p) * 256
  {
    var k := v / p;
    RoundDownIff(v, p, k);
    assert k * p * 256 == k * (p * 256);
    RoundDownIff(v * 256 + x, p * 256, k);
  }

  lemma MaskSnoc(a: seq<Byte>, prefix: nat)
    requires a != []
    ensures var n := |a| - 1;
            Value(Masked(a, prefix)) == Value(Masked(a[..n], prefix)) * 256 + MaskByte(a[n], HostBits(n, prefix))
  {
    var n := |a| - 1;
    assert Masked(a, prefix) == Masked(a[..n], prefix) + [MaskByte(a[n], HostBits(n, prefix))];
    ValueSnoc(Masked(a[..n], prefix), MaskByte(a[n], HostBits(n, prefix)));
  }

  lemma RoundLastByte(v: nat, x: Byte, h: nat)
    requires h <= 8
    ensures RoundDown(v * 256 + x, Pow2(h)) == v * 256 + MaskByte(x, h)
  {
    Pow2Eight();
    Pow2Add(h, 8 - h);
    RoundLow(v, x, Pow2(h), Pow2(8 - h));
  }

  lemma RoundWholeByte(v: nat, x: Byte, h: nat)
    requires h > 8
    ensures RoundDown(v * 256 + x, Pow2(h)) == RoundDown(v, Pow2(h - 8)) * 256 + MaskByte(x, 8)
  {
    Pow2Eight();
    Pow2Add(h - 8, 8);
    RoundHigh(v, x, Pow2(h - 8));
    RoundDownIff(x, 256, 0);
  }

  /** Masking an address rounds its value down to the start of its block. */
  lemma {:induction false} MaskRounds(a: seq<Byte>, prefix: nat)
    requires prefix <= 8 * |a|
    ensures Value(Masked(a, prefix)) == RoundDown(Value(a), Pow2(8 * |a| - prefix))
  {
    if a == [] {
      assert Masked(a, prefix) == [];
      RoundDownIff(0, Pow2(0), 0);
    } else {
      var n, h := |a| - 1, 8 * |a| - prefix;
      MaskSnoc(a, prefix);
      if h <= 8 {
        MaskNothing(a[..n], prefix);
        RoundLastByte(Value(a[..n]), a[n], h);
      } else {
        MaskRounds(a[..n], prefix);
        RoundWholeByte(Value(a[..n]), a[n], h);
      }
    }
  }

  lemma MaskNothing(a: seq<Byte>, prefix: nat)
    requires 8 * |a| <= prefix
    ensures Masked(a, prefix) == a
  {
    assert Pow2(0) == 1;
    forall i: nat | i < |a| ensures Masked(a, prefix)[i] == a[i] {
      assert HostBits(i, prefix) == 0;
    }
  }

  // ----- expandCIDR -----

  const DEFAULT_MAX_HOSTS: nat := 256

  /** The number of addresses of the block. */
  function Size(bytes: nat, prefix: nat): nat
    requires prefix <= 8 * bytes
  {
    Pow2(8 * bytes - prefix)
  }

  /** The first address of the block, as a number. */
  function Base(ip: seq<Byte>, prefix: nat): nat
    requires prefix <= 8 * |ip|
  {
    RoundDown(Value(ip), Size(|ip|, prefix))
  }

  predicate Contains(network: seq<Byte>, prefix: nat, addr: seq<Byte>) {
    Masked(addr, prefix) == Masked(network, prefix)
  }

  lemma ContainsIff(network: seq<Byte>, prefix: nat, addr: seq<Byte>)
    requires |network| == |addr| && prefix <= 8 * |addr|
    ensures Contains(network, prefix, addr) <==> Base(addr, prefix) == Base(network, prefix)
  {
    MaskRounds(network, prefix);
    MaskRounds(addr, prefix);
    if Base(addr, prefix) == Base(network, prefix) {
      ValueInjective(Masked(addr, prefix), Masked(network, prefix));
    }
  }

  /** Where the c-th increment of the block's first address is. */
  function Place(base: nat, c: nat, all: nat): nat {
    if base + c == all then 0 else base + c
  }

  /** Whether it is still in the block: in a proper block exactly when c is below its size, even when the
      increment starts over at zero; in the whole address space always. */
  lemma StillInside(ip: seq<Byte>, prefix: nat, addr: seq<Byte>, c: nat)
    requires |addr| == |ip| && prefix <= 8 * |ip| && c <= Size(|ip|, prefix)
    requires Value(addr) == Place(Base(ip, prefix), c, Pow2(8 * |ip|))
    ensures prefix >= 1 ==> (Contains(ip, prefix, addr) <==> c < Size(|ip|, prefix))
  {
    ContainsIff(ip, prefix, addr);
    BlockFits(ip, prefix);
    SameBlockIff(Value(ip), Value(addr), Size(|ip|, prefix));
  }

  lemma SameBlockIff(v: nat, w: nat, p: nat)
    requires p > 0
    ensures RoundDown(w, p) == RoundDown(v, p) <==> RoundDown(v, p) <= w < RoundDown(v, p) + p
  {
    RoundDownIff(w, p, v / p);
  }

  lemma WholeSpace(ip: seq<Byte>)
    ensures Base(ip, 0) == 0 && Size(|ip|, 0) == Pow2(8 * |ip|)
  {
    ValueRange(ip);
    RoundDownIff(Value(ip), Pow2(8 * |ip|), 0);
  }

  /** A block lies inside the address space, and a proper one is not all of it. */
  lemma BlockFits(ip: seq<Byte>, prefix: nat)
    requires prefix <= 8 * |ip|
    ensures Base(ip, prefix) + Size(|ip|, prefix) <= Pow2(8 * |ip|)
    ensures prefix >= 1 ==> Size(|ip|, prefix) < Pow2(8 * |ip|)
  {
    var h := 8 * |ip| - prefix;
    assert h + prefix == 8 * |ip|;
    Pow2Add(h, prefix);
    ValueRange(ip);
    InsideMultiple(Value(ip), Pow2(h), Pow2(prefix));
    if prefix >= 1 {
      HalfAtMost(Pow2(h), prefix);
    }
  }

  lemma HalfAtMost(size: nat, prefix: nat)
    requires size > 0 && prefix >= 1
    ensures size < size * Pow2(prefix)
  {
    Times(2, Pow2(prefix), size);
  }

  lemma InsideMultiple(v: nat, size: nat, blocks: nat)
    requires size > 0 && v < size * blocks
    ensures RoundDown(v, size) + size <= size * blocks
  {
    assert size * blocks == blocks * size;
    var q := v / size;
    RoundDownIff(v, size, q);
    if q >= blocks {
      Times(blocks, q, size);
    } else {
      Times(q + 1, blocks, size);
      assert (q + 1) * size == q * size + size;
    }
  }

  /** All addresses of the block in ascending order, or an error when there are more than maxHosts. The whole
      address space is never returned: its increment wraps around inside the block. */
  method ExpandCIDR(ip: seq<Byte>, prefix: nat, maxHosts: int) returns (ips: seq<seq<Byte>>, failed: bool)
    requires prefix <= 8 * |ip|
    ensures var cap := if maxHosts <= 0 then 256 else maxHosts;
            !failed <==> prefix >= 1 && Size(|ip|, prefix) <= cap
    ensures !failed ==> |ips| == Size(|ip|, prefix)
    ensures !failed ==> forall i :: 0 <= i < |ips| ==> |ips[i]| == |ip| && Value(ips[i]) == Base(ip, prefix) + i
  {
    var cap: nat := if maxHosts <= 0 then DEFAULT_MAX_HOSTS else maxHosts;
    ghost var size, base, all := Size(|ip|, prefix), Base(ip, prefix), Pow2(8 * |ip|);
    ips, failed := [], false;
    var start := Masked(ip, prefix);
    var addr := new Byte[|start|](i requires 0 <= i < |start| => start[i]);
    assert addr[..] == start;
    Start(ip, prefix, base, size, all);
    while Contains(ip, prefix, addr[..])
      invariant addr.Length == |ip| && fresh(addr) && |ips| <= cap
      invariant prefix == 0 ==> Contains(ip, prefix, addr[..])
      invariant prefix >= 1 ==> Expanding(ip, prefix, base, size, all, addr[..], ips)
      decreases cap - |ips|
    {
      ghost var before := addr[..];
      ips := ips + [addr[..]];
      if |ips| > cap {
        return [], true;
      }
      IncIP(addr);
      Advance(ip, prefix, base, size, all, before, addr[..], ips[..|ips| - 1]);
      assert ips == ips[..|ips| - 1] + [before];
    }
  }

  ghost predicate Expanding(ip: seq<Byte>, prefix: nat, base: nat, size: nat, all: nat, addr: seq<Byte>, ips: seq<seq<Byte>>)
    requires prefix <= 8 * |ip| && |addr| == |ip|
  {
    && |ips| <= size && Value(addr) == Place(base, |ips|, all)
    && (Contains(ip, prefix, addr) <==> |ips| < size)
    && forall i :: 0 <= i < |ips| ==> |ips[i]| == |ip| && Value(ips[i]) == base + i
  }

  lemma Start(ip: seq<Byte>, prefix: nat, base: nat, size: nat, all: nat)
    requires prefix <= 8 * |ip| && size == Size(|ip|, prefix) && base == Base(ip, prefix) && all == Pow2(8 * |ip|)
    ensures prefix >= 1 ==> Expanding(ip, prefix, base, size, all, Masked(ip, prefix), [])
    ensures prefix == 0 ==> Contains(ip, prefix, Masked(ip, prefix))
  {
    var start := Masked(ip, prefix);
    MaskRounds(ip, prefix);
    BlockFits(ip, prefix);
    if prefix >= 1 {
      StillInside(ip, prefix, start, 0);
    } else {
      AlwaysInside(ip, start);
    }
  }

  lemma AlwaysInside(ip: seq<Byte>, addr: seq<Byte>)
    requires |addr| == |ip|
    ensures Contains(ip, 0, addr)
  {
    WholeSpace(ip);
    WholeSpace(addr);
    ContainsIff(ip, 0, addr);
  }

  lemma Advance(ip: seq<Byte>, prefix: nat, base: nat, size: nat, all: nat, before: seq<Byte>, addr: seq<Byte>, ips: seq<seq<Byte>>)
    requires prefix <= 8 * |ip| && size == Size(|ip|, prefix) && base == Base(ip, prefix) && all == Pow2(8 * |ip|)
    requires |before| == |addr| == |ip| && Value(addr) == Next(Value(before), all)
    requires Contains(ip, prefix, before) && (prefix >= 1 ==> Expanding(ip, prefix, base, size, all, before, ips))
    ensures prefix >= 1 ==> Expanding(ip, prefix, base, size, all, addr, ips + [before])
    ensures prefix == 0 ==> Contains(ip, prefix, addr)
  {
    if prefix >= 1 {
      BlockFits(ip, prefix);
      assert Value(addr) == Place(base, |ips| + 1, all);
      StillInside(ip, prefix, addr, |ips| + 1);
    } else {
      AlwaysInside(ip, addr);
    }
  }

  /** The empty prefix of IPv4: after the last address comes the first, which is inside the block as well, so
      the loop goes on past all 2^32 addresses and any cap. */
  lemma EmptyPrefixWraps(ip: seq<Byte>)
    requires |ip| == 4
    ensures Size(4, 0) == 0x1_0000_0000
    ensures Increment([255, 255, 255, 255]) == [0, 0, 0, 0] && Contains(ip, 0, [0, 0, 0, 0])
  {
    Pow2Eight();
    Pow2Add(8, 8);
    Pow2Add(16, 16);
    var a, b, c, d: seq<Byte> := [255], [255, 255], [255, 255, 255], [255, 255, 255, 255];
    assert d[..3] == c && c[..2] == b && b[..1] == a && a[..0] == [];
    assert Increment(a) == [0];
    assert Increment(b) == Increment(a) + [0];
    assert Increment(c) == Increment(b) + [0];
    AlwaysInside(ip, [0, 0, 0, 0]);
  }
}
