/** How a growable capacity grows (include/ORGModuleServices/GrowthPolicy.h), in 64 bits. */
module GrowthPolicy {
  import opened Bytes

  const MAX_U64: nat := 0xffff_ffff_ffff_ffff

  datatype Kind = Doubling | Headroom
  datatype GrowthPolicy = GrowthPolicy(kind: Kind, percent: nat, minimum: nat)
  datatype Capacity = Made(value: nat) | PastLimit

  /** An unsigned 64-bit result. */
  function Wrap(n: nat): nat {
    n % (MAX_U64 + 1)
  }

  /** The percentage as the source splits it: each product and the sum are 64-bit. */
  function SplitPercent(n: nat, percent: nat): nat {
    Wrap(Wrap(n / 100 * percent) + Wrap(n % 100 * percent) / 100)
  }

  /** `base` doubled until it holds the need. */
  function Doubled(base: nat, needed: nat): (r: nat)
    requires base != 0
    ensures needed <= r && base <= r
    decreases if base < needed then needed - base else 0
  {
    if needed <= base then base else Doubled(base * 2, needed)
  }

  function Fresh(policy: GrowthPolicy, current: nat): nat {
    Max(current, policy.minimum)
  }

  /** The capacity Next makes, or that it throws. */
  function NextCapacity(policy: GrowthPolicy, current: nat, needed: nat): Capacity {
    var held := Fresh(policy, current);
    if needed <= held then Made(held)
    else if policy.kind.Headroom? then
      var extra := SplitPercent(needed, policy.percent);
      if needed + extra > MAX_U64 then PastLimit else Made(Max(needed + extra, policy.minimum))
    else
      var capacity := Doubled(Max(held, 1), needed);
      if capacity > MAX_U64 then PastLimit else Made(capacity)
  }

  method Next(policy: GrowthPolicy, current: nat, needed: nat) returns (r: Capacity)
    requires current <= MAX_U64 && needed <= MAX_U64 && policy.minimum <= MAX_U64
    ensures r == NextCapacity(policy, current, needed)
  {
    var capacity := if current > policy.minimum then current else policy.minimum;
    if capacity >= needed { return Made(capacity); }
    if policy.kind.Headroom? {
      var extra := Wrap(Wrap(needed / 100 * policy.percent) + Wrap(needed % 100 * policy.percent) / 100);
      if extra > MAX_U64 - needed { return PastLimit; }
      return Made(if needed + extra > policy.minimum then needed + extra else policy.minimum);
    }
    if capacity == 0 { capacity := 1; }
    ghost var base := capacity;
    while capacity < needed
      invariant 0 < capacity <= MAX_U64 && Doubled(capacity, needed) == Doubled(base, needed)
      decreases needed - capacity
    {
      if capacity > MAX_U64 / 2 { return PastLimit; }
      capacity := capacity * 2;
    }
    r := Made(capacity);
  }

  /** Next for a capacity held in a type up to `limit`. */
  method NextAs(policy: GrowthPolicy, current: nat, needed: nat, limit: nat) returns (r: Capacity)
    requires current <= MAX_U64 && needed <= MAX_U64 && policy.minimum <= MAX_U64
    ensures r == var made := NextCapacity(policy, current, needed); if made.Made? && made.value > limit then PastLimit else made
  {
    r := Next(policy, current, needed);
    if r.Made? && r.value > limit { r := PastLimit; }
  }

  /** A made capacity is never less than the need, nor than what is held. */
  lemma NextHolds(policy: GrowthPolicy, current: nat, needed: nat)
    ensures NextCapacity(policy, current, needed).Made? ==>
      needed <= NextCapacity(policy, current, needed).value && policy.minimum <= NextCapacity(policy, current, needed).value
    ensures NextCapacity(policy, current, needed).Made? ==> current <= NextCapacity(policy, current, needed).value
  {}

  /** `base` doubled k times. */
  function Scaled(base: nat, k: nat): nat
    decreases k
  {
    if k == 0 then base else Scaled(base * 2, k - 1)
  }

  lemma {:induction false} ScaledGrows(base: nat, j: nat, k: nat)
    requires j <= k
    ensures Scaled(base, j) <= Scaled(base, k)
    decreases k
  {
    if j != 0 { ScaledGrows(base * 2, j - 1, k - 1); } else if k != 0 { ScaledGrows(base * 2, 0, k - 1); }
  }

  /** Doubling reaches the base doubled the fewest times that hold the need. */
  lemma {:induction false} DoubledIsLeast(base: nat, needed: nat) returns (k: nat)
    requires base != 0
    ensures Doubled(base, needed) == Scaled(base, k)
    ensures forall j: nat :: needed <= Scaled(base, j) ==> k <= j
    decreases if base < needed then needed - base else 0
  {
    if needed <= base {
      k := 0;
    } else {
      var rest := DoubledIsLeast(base * 2, needed);
      k := rest + 1;
      forall j: nat | needed <= Scaled(base, j) ensures k <= j {
        assert j != 0 && needed <= Scaled(base * 2, j - 1);
      }
    }
  }

  /** A Doubling policy throws exactly when no doubled base within 64 bits holds the need. */
  lemma DoublingThrowsExactly(policy: GrowthPolicy, current: nat, needed: nat)
    requires policy.kind.Doubling? && Fresh(policy, current) <= MAX_U64
    ensures NextCapacity(policy, current, needed) == PastLimit <==>
      forall j: nat :: needed <= Scaled(Max(Fresh(policy, current), 1), j) ==> Scaled(Max(Fresh(policy, current), 1), j) > MAX_U64
  {
    var base := Max(Fresh(policy, current), 1);
    var k := DoubledIsLeast(base, needed);
    assert Scaled(base, 0) == base;
    forall j: nat | needed <= Scaled(base, j) ensures Scaled(base, k) <= Scaled(base, j) {
      ScaledGrows(base, k, j);
    }
  }

  /** `v` is the base doubled the fewest times that hold the need. */
  ghost predicate LeastDoubled(base: nat, needed: nat, v: nat) {
    exists k: nat :: v == Scaled(base, k) && needed <= v && forall j: nat :: j < k ==> Scaled(base, j) < needed
  }

  lemma DoubledAlone(base: nat, needed: nat, v: nat)
    requires base != 0
    ensures LeastDoubled(base, needed, v) <==> v == Doubled(base, needed)
  {
    var k := DoubledIsLeast(base, needed);
    if LeastDoubled(base, needed, v) {
      var m: nat :| v == Scaled(base, m) && needed <= v && forall j: nat :: j < m ==> Scaled(base, j) < needed;
      assert k == m;
    }
  }

  /** What is held stays when it suffices; else Doubling makes what is held (or one), doubled the fewest times, if 64 bits hold that. */
  lemma NextDoubles(policy: GrowthPolicy, current: nat, needed: nat, v: nat)
    requires policy.kind.Doubling?
    ensures NextCapacity(policy, current, needed) == Made(v) <==>
      if needed <= Fresh(policy, current) then v == Fresh(policy, current)
      else v <= MAX_U64 && LeastDoubled(Max(Fresh(policy, current), 1), needed, v)
  {
    DoubledAlone(Max(Fresh(policy, current), 1), needed, v);
  }

  /** A Headroom policy keeps what suffices, too; past it, it makes nothing less than the need, and nothing of the former capacity. */
  lemma HeadroomKeeps(policy: GrowthPolicy, current: nat, former: nat, needed: nat)
    requires policy.kind.Headroom?
    ensures needed <= Fresh(policy, current) ==> NextCapacity(policy, current, needed) == Made(Fresh(policy, current))
    ensures Fresh(policy, current) < needed && Fresh(policy, former) < needed ==>
      NextCapacity(policy, current, needed) == NextCapacity(policy, former, needed)
  {}

  lemma Products(q: nat, r: nat, percent: nat)
    ensures (100 * q + r) * percent == 100 * (q * percent) + r * percent
    ensures r < 100 ==> r * percent <= 99 * percent
  {}

  lemma Hundredth(a: nat, b: nat)
    ensures (100 * a + b) / 100 == a + b / 100
  {}

  lemma WrapOnce(a: nat, b: nat)
    requires b <= MAX_U64
    ensures Wrap(Wrap(a) + Wrap(b) / 100) == Wrap(a + b / 100)
  {}

  lemma SplitSum(n: nat, percent: nat)
    ensures n / 100 * percent + n % 100 * percent / 100 == n * percent / 100
    ensures n % 100 * percent <= 99 * percent
  {
    var q, r := n / 100, n % 100;
    Products(q, r, percent);
    assert n == 100 * q + r;
    Hundredth(q * percent, r * percent);
  }

  /** The split percentage is the exact one, cut to 64 bits. */
  lemma SplitIsExact(n: nat, percent: nat)
    requires n <= MAX_U64 && percent <= 0xffff_ffff
    ensures SplitPercent(n, percent) == Wrap(n * percent / 100)
  {
    SplitSum(n, percent);
    assert 99 * percent <= MAX_U64;
    WrapOnce(n / 100 * percent, n % 100 * percent);
  }

  lemma Unwrapped(m: nat, n: nat)
    requires m <= n <= MAX_U64
    ensures Wrap(m) == m
  {}

  lemma Scales(n: nat, percent: nat)
    requires percent <= 100
    ensures n * percent / 100 <= n
  {
    assert n * percent <= n * 100;
  }

  /** In particular for a percentage up to 100. */
  lemma SmallPercent(n: nat, percent: nat)
    requires n <= MAX_U64 && percent <= 100
    ensures SplitPercent(n, percent) == n * percent / 100 <= n
  {
    Scales(n, percent);
    SplitIsExact(n, percent);
    Unwrapped(n * percent / 100, n);
  }

  /** A Headroom past 64 bits can go unnoticed: here the source's sum wraps to nothing, and no headroom is made. */
  lemma HeadroomMayWrap()
    ensures var needed := 0x8000_0000_0000_0000;
      needed + needed * 400 / 100 > MAX_U64 && NextCapacity(GrowthPolicy(Headroom, 400, 1), 0, needed) == Made(needed)
  {
    var needed := 0x8000_0000_0000_0000;
    assert needed / 100 * 400 + needed % 100 * 400 / 100 == needed * 4;
  }

  /** The need and what is added to it, or past the limit. */
  function Added(needed: nat, extra: nat): Capacity {
    if needed + extra > MAX_U64 then PastLimit else Made(needed + extra)
  }

  lemma WrappedAdds(needed: nat, extra: nat)
    requires needed <= MAX_U64
    ensures Added(needed, Wrap(extra)) == Added(needed, extra) <==> (extra <= MAX_U64 || needed + Wrap(extra) > MAX_U64)
  {}

  /** Next makes the exact headroom, or throws for it, unless the percentage alone passes 64 bits and what it wraps to fits again. */
  lemma HeadroomExact(policy: GrowthPolicy, current: nat, needed: nat)
    requires policy.kind.Headroom? && policy.percent <= 0xffff_ffff && Fresh(policy, current) < needed <= MAX_U64
    ensures NextCapacity(policy, current, needed) == Added(needed, needed * policy.percent / 100) <==>
      (needed * policy.percent / 100 <= MAX_U64 || needed + Wrap(needed * policy.percent / 100) > MAX_U64)
  {
    SplitIsExact(needed, policy.percent);
    WrappedAdds(needed, needed * policy.percent / 100);
  }
}
