/** What JournaledBufferSet.PublishPart does to a backing is a path of JournaledSetRun's steps: the take, one step a run, and the seal
    or the throw. */
module JournaledSetRefinement {
  import opened Bytes
  import opened BackingMemory
  import opened GrowthPolicy
  import opened JournaledBufferSet
  import R = JournaledSetRun

  /** The run's backing `id` holds what this one does. */
  ghost predicate Contents(s: R.State, id: nat, backing: Backing)
    reads backing`memory, backing`contentEpoch
  {
    && id in s.backings && s.backings[id].capacity == backing.byteCapacity && s.backings[id].memory == backing.memory
    && s.backings[id].epoch == backing.contentEpoch
  }

  /** And has its mark; who leases it is the pool's to know. */
  ghost predicate Abstracts(s: R.State, id: nat, backing: Backing)
    reads backing`memory, backing`contentEpoch, backing`sealedBytes
  {
    Contents(s, id, backing) && s.backings[id].sealed == backing.sealedBytes
  }

  /** A step of the publisher, not of someone who holds a handle. */
  predicate OwnStep(a: R.Action) {
    !a.Copy? && !a.Release? && !a.Bind? && !a.Advance? && !a.Discard?
  }

  /** The publisher's steps, one after another. */
  predicate IsPath(states: seq<R.State>, acts: seq<R.Action>) {
    && |states| == |acts| + 1
    && forall i :: 0 <= i < |acts| ==>
         OwnStep(acts[i]) && R.Enabled(states[i], acts[i]) && states[i + 1] == R.Apply(states[i], acts[i])
  }

  lemma Go(states: seq<R.State>, acts: seq<R.Action>, a: R.Action)
      returns (states': seq<R.State>, acts': seq<R.Action>)
    requires IsPath(states, acts) && OwnStep(a) && R.Enabled(states[|acts|], a)
    ensures IsPath(states', acts') && states'[0] == states[0] && states'[|acts'|] == R.Apply(states[|acts|], a)
  {
    states', acts' := states + [R.Apply(states[|acts|], a)], acts + [a];
  }

  /** The state with the publisher's backing holding `memory`. */
  function Holding(s: R.State, memory: seq<byte>): R.State
    requires s.publisher.Emitting? && s.publisher.backing in s.backings
  {
    s.(backings := s.backings[s.publisher.backing := s.backings[s.publisher.backing].(memory := memory)])
  }

  /** Runs that fit are sink writes, one after another. */
  lemma {:induction false} RunsAreWrites(states: seq<R.State>, acts: seq<R.Action>, runs: seq<Run>)
      returns (states': seq<R.State>, acts': seq<R.Action>)
    requires IsPath(states, acts)
    requires var s := states[|acts|]; s.publisher.Emitting? && s.publisher.backing in s.backings
    requires var s := states[|acts|]; var b := s.backings[s.publisher.backing];
      |b.memory| == b.capacity && RunsFit(runs, s.publisher.floor, b.capacity)
    ensures IsPath(states', acts') && states'[0] == states[0]
    ensures var s := states[|acts|]; states'[|acts'|] == Holding(s, Written(s.backings[s.publisher.backing].memory, runs))
  {
    var s := states[|acts|];
    var id := s.publisher.backing;
    if runs == [] {
      assert s.backings[id := s.backings[id]] == s.backings;
      states', acts' := states, acts;
    } else {
      var before, run := runs[..|runs| - 1], runs[|runs| - 1];
      assert forall r :: r in before ==> r in runs;
      assert run in runs;
      states', acts' := RunsAreWrites(states, acts, before);
      if run.data != [] { states', acts' := Go(states', acts', R.SinkWrite(run.offset, run.data)); }
    }
  }

  /** Action `a` takes the request's backing as the run's `id`: appends into the head's, makes a new one, or reuses an old one. */
  ghost predicate TakenBy(s: R.State, a: R.Action, request: Request, acquired: Acquired, id: nat)
    reads TakenIn(request, acquired)
  {
    var backing := Taken(request, acquired);
    && backing != null && R.Enabled(s, a)
    && if Appends(request) then a.Append? && s.handles[a.head].backing == id && Abstracts(s, id, backing)
       else if acquired.isNew then a.Allocate? && a.id == id && a.memory == backing.memory
       else a.Reuse? && a.id == id && Contents(s, id, backing)
  }

  /** The publisher is about to emit into the backing, above the mark an append keeps. */
  ghost predicate Emitting(s: R.State, id: nat, h: nat, capacity: nat, memory: seq<byte>, floor: nat) {
    && s.publisher.Emitting? && s.publisher.backing == id && s.publisher.floor == floor && s.publisher.handle == h && h in s.handles
    && id in s.backings && s.backings[id].capacity == capacity == |memory| && s.backings[id].memory == memory
    && s.backings[id].epoch == 0 && s.backings[id].sealed == floor
  }

  lemma TakesToEmit(part: PartState, request: Request, acquired: Acquired, s: R.State, a: R.Action, id: nat)
    requires Fitting(part, request, acquired) && TakenBy(s, a, request, acquired, id)
    ensures var backing := Taken(request, acquired);
      Emitting(R.Apply(s, a), id, a.h, backing.byteCapacity, backing.memory, SealedFrom(request, backing.sealedBytes))
    ensures R.Apply(s, a).versions == s.versions
  {
  }

  /** From the take to the end of the emit, at whichever call it ended. */
  lemma Emits(s: R.State, a: R.Action, id: nat, former: seq<byte>, memory: seq<byte>, floor: nat, runs: seq<Run>)
      returns (states: seq<R.State>, acts: seq<R.Action>)
    requires R.Enabled(s, a) && (a.Append? || a.Allocate? || a.Reuse?)
    requires Emitting(R.Apply(s, a), id, a.h, |former|, former, floor)
    requires RunsFit(runs, floor, |former|) && memory == Written(former, runs)
    ensures IsPath(states, acts) && states[0] == s
    ensures states[|acts|] == Holding(R.Apply(s, a), memory)
  {
    states, acts := Go([s], [], a);
    states, acts := RunsAreWrites(states, acts, runs);
  }

  /** The emit ends and the part is sealed. */
  lemma EmitsAndSeals(s: R.State, a: R.Action, id: nat, former: seq<byte>, memory: seq<byte>, floor: nat, runs: seq<Run>,
      bytes: nat, epoch: nat, v: nat) returns (states: seq<R.State>, acts: seq<R.Action>)
    requires R.Enabled(s, a) && (a.Append? || a.Allocate? || a.Reuse?) && R.Apply(s, a).versions == s.versions && v !in s.versions
    requires Emitting(R.Apply(s, a), id, a.h, |former|, former, floor) && bytes <= |former|
    requires RunsFit(runs, floor, |former|) && memory == Written(former, runs)
    ensures IsPath(states, acts) && states[0] == s && id in states[|acts|].backings && v in states[|acts|].versions
    ensures var b := states[|acts|].backings[id];
      b.memory == memory && b.capacity == |former| && b.epoch == epoch && b.sealed == Max(floor, bytes)
    ensures states[|acts|].versions[v] == R.Version(id, memory[..bytes], 0)
  {
    states, acts := Emits(s, a, id, former, memory, floor, runs);
    states, acts := Go(states, acts, R.Seal(bytes, epoch, v));
  }

  /** The emit throws, with the calls before landed. */
  lemma EmitsAndThrows(s: R.State, a: R.Action, id: nat, former: seq<byte>, memory: seq<byte>, floor: nat, calls: seq<SinkCall>)
      returns (states: seq<R.State>, acts: seq<R.Action>)
    requires R.Enabled(s, a) && (a.Append? || a.Allocate? || a.Reuse?)
    requires Emitting(R.Apply(s, a), id, a.h, |former|, former, floor) && SomeLanded(former, memory, floor, calls)
    ensures IsPath(states, acts) && states[0] == s && id in states[|acts|].backings && states[|acts|].publisher.Unwinding?
    ensures var b := states[|acts|].backings[id]; b.memory == memory && b.capacity == |former| && b.epoch == 0 && b.sealed == floor
  {
    var n: nat :| LandedUpTo(former, memory, floor, calls, n);
    states, acts := Emits(s, a, id, former, memory, floor, AllRuns(calls[..n]));
    states, acts := Go(states, acts, R.Throw);
  }

  /** What the pools promise of what they hand out: the class asked for, with the bytes it stands for. */
  predicate LeaseFits(part: PartState, request: Request, acquired: Acquired) {
    var backing := Taken(request, acquired);
    backing != null ==>
      && backing.byteCapacity == (if backing.stride != 0 then backing.capacityClass * backing.stride else backing.capacityClass)
      && (!Appends(request) ==>
            backing.stride == part.stride && (ClassOf(part, request).Made? ==> ClassOf(part, request).value == backing.capacityClass))
  }

  lemma Scaled(a: nat, b: nat, d: nat)
    requires a <= b
    ensures a * d <= b * d
  {}

  /** So a part's units lie inside the backing it is made in. */
  lemma UnitsFit(part: PartState, request: Request, acquired: Acquired)
    requires Taken(request, acquired) != null && LeaseFits(part, request, acquired) && Owns(part, request) && ClassOf(part, request).Made?
    ensures UnitBytes(part, request.units) <= Taken(request, acquired).byteCapacity
  {
    var backing := Taken(request, acquired);
    if !Appends(request) { NextHolds(part.policy, part.highWater, request.units); }
    Scaled(request.units, backing.capacityClass, part.stride);
  }

  /** A version `v` of the first `bytes` bytes of the backing. */
  ghost predicate Names(s: R.State, v: nat, id: nat, backing: Backing, bytes: nat)
    reads backing`memory
  {
    v in s.versions && s.versions[v].backing == id && bytes <= |backing.memory| && s.versions[v].bytes == backing.memory[..bytes]
  }

  /** A part's publication: the steps that take its backing, write its runs, and seal it as version `v`. An emit that throws ends in the
      run's throw path, its backing forgotten; what throws before the take takes nothing. */
  method PartIsSteps(part: PartState, request: Request, acquired: Acquired, ghost s: R.State, ghost a: R.Action, ghost id: nat, ghost v: nat)
      returns (version: Version, thrown: Option<Thrown>, ghost states: seq<R.State>, ghost acts: seq<R.Action>)
    requires Fitting(part, request, acquired) && TakenBy(s, a, request, acquired, id) && v !in s.versions
    requires LeaseFits(part, request, acquired)
    modifies Taken(request, acquired)
    ensures IsPath(states, acts) && states[0] == s
    ensures thrown.None? ==>
      && version.lease == Taken(request, acquired) && Abstracts(states[|acts|], id, version.lease)
      && Names(states[|acts|], v, id, version.lease, UnitBytes(part, request.units))
    ensures thrown.Some? && version.lease != null ==>
      version.lease == Taken(request, acquired) && Abstracts(states[|acts|], id, version.lease) && states[|acts|].publisher.Unwinding?
    ensures thrown.Some? && version.lease == null ==> acts == [] && unchanged(Taken(request, acquired))
  {
    ghost var backing := Taken(request, acquired);
    ghost var former, floor := backing.memory, SealedFrom(request, backing.sealedBytes);
    ghost var held := backing.contentEpoch;
    TakesToEmit(part, request, acquired, s, a, id);
    var highWater: nat;
    version, highWater, thrown := PublishPart(part, request, acquired);
    states, acts := [s], [];
    if thrown.None? {
      UnitsFit(part, request, acquired);
      states, acts := EmitsAndSeals(s, a, id, former, version.lease.memory, floor, version.runs, UnitBytes(part, request.units),
        version.contentEpoch, v);
    } else if version.lease != null {
      states, acts := EmitsAndThrows(s, a, id, former, version.lease.memory, floor,
        request.emit.script(TargetOf(part, request, acquired, held)).calls);
    }
  }
}
