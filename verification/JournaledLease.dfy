/** A part's lease from its pool: what BackingPool.Acquire hands out is what JournaledSetRun lets a publisher take, and what PublishPart
    asks of it. */
module JournaledLease {
  import opened Bytes
  import opened BackingMemory
  import opened GrowthPolicy
  import opened JournaledBufferSet
  import opened JournaledSetRefinement
  import P = BackingPool
  import R = JournaledSetRun

  /** The run's backing `id` is this one. */
  ghost predicate Is(s: R.State, id: nat, backing: Backing)
    reads backing`memory, backing`contentEpoch, backing`sealedBytes, backing`leases, backing`safeAt
  {
    Abstracts(s, id, backing) && s.backings[id].leases == backing.leases && s.backings[id].safeAt == backing.safeAt
  }

  /** The run has the pool's backings, each under its own name. */
  ghost predicate Pooled(s: R.State, all: seq<Backing>, names: map<Backing, nat>)
    reads P.SetOf(all)`memory, P.SetOf(all)`contentEpoch, P.SetOf(all)`sealedBytes, P.SetOf(all)`leases, P.SetOf(all)`safeAt
  {
    && (forall b :: b in all ==> b in names && Is(s, names[b], b))
    && (forall b, c :: b in all && c in all && b != c ==> names[b] != names[c])
  }

  /** Every backing has the bytes its class stands for. */
  predicate Whole(all: seq<Backing>)
    reads P.SetOf(all)`memory
  {
    forall b :: b in all ==>
      |b.memory| == b.byteCapacity == if b.stride != 0 then b.capacityClass * b.stride else b.capacityClass
  }

  /** What a part asks its pool for. */
  function AskOf(part: PartState, request: Request, compatibility: nat): P.Request
    requires ClassOf(part, request).Made?
  {
    P.Request(ClassOf(part, request).value, P.Key(part.stride, part.flags, compatibility))
  }

  function Given(r: P.Acquired): Acquired {
    if r.Lent? then Acquired(r.backing, r.isNew) else Exhausted
  }

  /** How the run takes it. */
  function TakeOf(r: P.Acquired, id: nat, h: nat): R.Action
    requires r.Lent?
    reads r.backing`memory
  {
    if r.isNew then R.Allocate(id, h, r.backing.memory) else R.Reuse(id, h)
  }

  /** Acquire's lease is the take of JournaledSetRun for the part, exactly when no frame still uses the backing; under reuseBound the pool
      may hand out one that a frame does. The backing fits the part, and the pool's other backings stay as they were. */
  method LeasePart(pool: P.BackingPool, part: PartState, request: Request, compatibility: nat, preferEpoch: nat, completed: nat,
      late: set<Backing>, canAllocate: bool, ghost s: R.State, ghost names: map<Backing, nat>, ghost h: nat, ghost unused: nat)
      returns (r: P.Acquired, ghost id: nat)
    requires pool.Valid() && Whole(pool.all) && Pooled(s, pool.all, names) && s.publisher.Between? && s.completed == completed
    requires h !in s.handles && unused !in s.backings
    requires request.emit.Emits? && !Appends(request) && Owns(part, request) && ClassOf(part, request).Made?
    modifies pool, P.SetOf(pool.all)`leases, P.SetOf(pool.all)`place, P.SetOf(pool.all)`sealedBytes
    ensures pool.Valid() && Whole(pool.all)
    ensures r.Lent? ==> r.backing in pool.all && Fitting(part, request, Given(r)) && LeaseFits(part, request, Given(r))
    ensures r.Lent? ==> r.backing.leases == 1 && (TakenBy(s, TakeOf(r, id, h), request, Given(r), id) <==> r.writeAfter == 0)
    ensures r.Lent? ==> if r.isNew then fresh(r.backing) else r.backing in old(pool.all)
    ensures r.Lent? ==> id == if r.isNew then unused else names[r.backing]
    ensures r.Lent? && r.writeAfter != 0 ==> pool.config.reuseBound && r.writeAfter > completed
    ensures forall b :: b in pool.all && (r.Lent? ==> b != r.backing) ==> b in old(pool.all) && Is(s, names[b], b)
  {
    ghost var back: set<Backing>, order: seq<Backing>, at: nat, outgrown: set<Backing>;
    r, back, order, at, outgrown := pool.Acquire(AskOf(part, request, compatibility), preferEpoch, completed, late, canAllocate);
    id := if !r.Lent? then 0 else if r.isNew then unused else names[r.backing];
  }

  /** A part leased from its pool and published: the run's take, writes and seal. */
  method PublishLeased(pool: P.BackingPool, part: PartState, request: Request, compatibility: nat, preferEpoch: nat, completed: nat,
      late: set<Backing>, canAllocate: bool, ghost s: R.State, ghost names: map<Backing, nat>, ghost h: nat, ghost unused: nat, ghost v: nat)
      returns (version: Version, thrown: Option<Thrown>, ghost states: seq<R.State>, ghost acts: seq<R.Action>, ghost id: nat)
    requires pool.Valid() && Whole(pool.all) && Pooled(s, pool.all, names) && s.publisher.Between? && s.completed == completed
    requires h !in s.handles && unused !in s.backings && v !in s.versions && !pool.config.reuseBound
    requires request.emit.Emits? && !Appends(request) && Owns(part, request) && ClassOf(part, request).Made?
    modifies pool, P.SetOf(pool.all)
    ensures IsPath(states, acts) && states[0] == s
    ensures thrown.None? ==>
      && version.lease != null && version.lease in pool.all && Abstracts(states[|acts|], id, version.lease)
      && Names(states[|acts|], v, id, version.lease, UnitBytes(part, request.units))
    ensures thrown.Some? && version.lease == null ==> acts == []
    ensures thrown.Some? && version.lease != null ==> states[|acts|].publisher.Unwinding? && Abstracts(states[|acts|], id, version.lease)
  {
    var r: P.Acquired;
    r, id := LeasePart(pool, part, request, compatibility, preferEpoch, completed, late, canAllocate, s, names, h, unused);
    states, acts := [s], [];
    if r.Lent? {
      version, thrown, states, acts := PartIsSteps(part, request, Given(r), s, TakeOf(r, id, h), id, v);
    } else {
      var highWater: nat;
      version, highWater, thrown := PublishPart(part, request, Exhausted);
    }
  }
}
