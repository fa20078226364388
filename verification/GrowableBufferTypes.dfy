/** A growable buffer's sizes and what a build asks of it (include/ORGModuleServices/GrowableBufferTypes.h). */
module GrowableBufferTypes {
  import opened Bytes
  import opened GrowthPolicy

  /** Fixed bytes, bytes a unit, and a structured buffer's stride (0: raw). */
  datatype Extent = Extent(fixedBytes: nat, unitBytes: nat, stride: nat)

  function BytesFor(e: Extent, units: nat): nat {
    e.fixedBytes + units * e.unitBytes
  }

  function UnitsIn(e: Extent, bytes: nat): nat {
    if e.unitBytes != 0 && bytes > e.fixedBytes then (bytes - e.fixedBytes) / e.unitBytes else 0
  }

  function ElementsFor(e: Extent, units: nat): nat {
    if e.stride != 0 then (BytesFor(e, units) + e.stride - 1) / e.stride else 0
  }

  function CapacityClassFor(e: Extent, units: nat): nat {
    if e.stride != 0 then ElementsFor(e, units) else BytesFor(e, units)
  }

  /** The bytes a version made for `units` has: whole elements, or the bytes themselves. */
  function MadeBytes(e: Extent, units: nat): nat {
    if e.stride != 0 then CapacityClassFor(e, units) * e.stride else CapacityClassFor(e, units)
  }

  lemma Multiplied(a: nat, b: nat, d: nat)
    requires a <= b
    ensures a * d <= b * d
  {}

  lemma Divided(n: nat, d: nat)
    requires d != 0
    ensures n / d * d <= n < (n / d + 1) * d
  {}

  lemma DivisionHolds(n: nat, d: nat, q: nat)
    requires d != 0
    ensures q * d <= n <==> q <= n / d
  {
    Divided(n, d);
    if q <= n / d { Multiplied(q, n / d, d); } else { Multiplied(n / d + 1, q, d); }
  }

  /** A version of at least the bytes for some units holds them, and one of fewer bytes does not. */
  lemma UnitsHeld(e: Extent, units: nat, bytes: nat)
    requires e.unitBytes != 0 && units != 0
    ensures UnitsIn(e, bytes) >= units <==> bytes >= BytesFor(e, units)
  {
    if bytes > e.fixedBytes {
      DivisionHolds(bytes - e.fixedBytes, e.unitBytes, units);
    } else {
      assert units * e.unitBytes >= e.unitBytes;
    }
  }

  lemma RoundUp(n: nat, d: nat)
    requires d != 0
    ensures (n + d - 1) / d * d >= n && (n + d - 1) / d * d < n + d
  {
    var q := (n + d - 1) / d;
    assert n + d - 1 == q * d + (n + d - 1) % d;
  }

  /** Whole elements hold the bytes asked, and no element more than needed is made. */
  lemma ElementsRoundUp(e: Extent, units: nat)
    requires e.stride != 0
    ensures BytesFor(e, units) <= ElementsFor(e, units) * e.stride < BytesFor(e, units) + e.stride
  {
    RoundUp(BytesFor(e, units), e.stride);
  }

  /** What is made for some units holds at least them: growing to a need always meets it. */
  lemma MadeHolds(e: Extent, units: nat)
    requires e.unitBytes != 0
    ensures UnitsIn(e, MadeBytes(e, units)) >= units
  {
    if e.stride != 0 { ElementsRoundUp(e, units); }
    if units != 0 { UnitsHeld(e, units, MadeBytes(e, units)); }
  }

  /** And it is the least that does: whole elements, or the bytes themselves. */
  lemma MadeIsLeast(e: Extent, units: nat)
    ensures e.stride == 0 ==> MadeBytes(e, units) == BytesFor(e, units)
    ensures e.stride != 0 ==>
      MadeBytes(e, units) % e.stride == 0 && BytesFor(e, units) <= MadeBytes(e, units) < BytesFor(e, units) + e.stride
  {
    if e.stride != 0 {
      ElementsRoundUp(e, units);
      WholeElements(ElementsFor(e, units), e.stride);
    }
  }

  lemma WholeElements(n: nat, stride: nat)
    requires stride != 0
    ensures n * stride % stride == 0
  {
    Divided(n * stride, stride);
    DivisionHolds(n * stride, stride, n);
    assert (n * stride / stride) * stride <= n * stride;
    if n * stride / stride > n { Multiplied(n + 1, n * stride / stride, stride); }
  }

  /** A build's demand on a buffer: how much room, and which versions are too old. */
  datatype Requirement = Requirement(units: nat, newerThan: nat)

  function Merge(a: Requirement, b: Requirement): Requirement {
    Requirement(Max(a.units, b.units), Max(a.newerThan, b.newerThan))
  }

  predicate MetBy(r: Requirement, heldUnits: nat, serial: nat) {
    heldUnits >= r.units && serial > r.newerThan
  }

  /** A version meets a merged ask exactly when it meets both. */
  lemma MergedIsBoth(a: Requirement, b: Requirement, heldUnits: nat, serial: nat)
    ensures MetBy(Merge(a, b), heldUnits, serial) <==> MetBy(a, heldUnits, serial) && MetBy(b, heldUnits, serial)
  {}

  /** The units a growth makes. */
  function GrowTo(r: Requirement, policy: GrowthPolicy, heldUnits: nat): Capacity {
    if heldUnits >= r.units then Made(heldUnits) else NextCapacity(policy, heldUnits, r.units)
  }

  /** A demand for a newer version is never met by that version, and always by a later one, however many units they hold. */
  lemma NewerIsNewer(serial: nat, later: nat, heldUnits: nat)
    ensures !MetBy(Requirement(0, serial), heldUnits, serial)
    ensures MetBy(Requirement(0, serial), heldUnits, later) <==> serial < later
  {}

  /** A version that is only too old is made again at its size. */
  lemma AgedKeepsItsSize(r: Requirement, policy: GrowthPolicy, heldUnits: nat)
    requires r.units <= heldUnits
    ensures GrowTo(r, policy, heldUnits) == Made(heldUnits)
  {}

  /** One that is too small grows to what its policy makes of it. */
  lemma SmallGrows(r: Requirement, policy: GrowthPolicy, heldUnits: nat, v: nat)
    requires policy.kind.Doubling? && Fresh(policy, heldUnits) < r.units
    ensures GrowTo(r, policy, heldUnits) == Made(v) <==> v <= MAX_U64 && LeastDoubled(Max(Fresh(policy, heldUnits), 1), r.units, v)
  {
    NextDoubles(policy, heldUnits, r.units, v);
  }

  lemma GrowToHolds(r: Requirement, policy: GrowthPolicy, heldUnits: nat)
    ensures GrowTo(r, policy, heldUnits).Made? ==> r.units <= GrowTo(r, policy, heldUnits).value && heldUnits <= GrowTo(r, policy, heldUnits).value
  {
    NextHolds(policy, heldUnits, r.units);
  }
}
