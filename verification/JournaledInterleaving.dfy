/** A publisher among others: while it takes, writes and seals, other threads copy, bind, release and discard the handles they hold, and
    the clock advances. None of it keeps the publisher from its next step, or changes what it makes. */
module JournaledInterleaving {
  import opened BackingMemory
  import opened JournaledBufferSet
  import opened JournaledPublication
  import opened JournaledSetRefinement
  import R = JournaledSetRun

  /** The handles the publisher is going to make, which no other thread may use for its own. */
  function NewHandles(acts: seq<R.Action>): set<nat> {
    set a | a in acts && IsTake(a) :: a.h
  }

  /** The heads it appends into: its caller holds them meanwhile. */
  function Heads(acts: seq<R.Action>): set<nat> {
    set a | a in acts && a.Append? :: a.head
  }

  /** A step of another thread. */
  predicate Others(a: R.Action, acts: seq<R.Action>) {
    && !OwnStep(a) && (a.Copy? ==> a.other !in NewHandles(acts)) && (a.Release? ==> a.h !in Heads(acts))
  }

  /** Someone but the publisher holds it. */
  ghost predicate HeldOutside(s: R.State, id: nat) {
    exists h :: R.Held(s, h) && s.handles[h].backing == id
  }

  // ---- the publisher alone (s), and among others (t) ----

  predicate SameBytes(a: R.Backing, b: R.Backing) {
    a.memory == b.memory && a.capacity == b.capacity && a.sealed == b.sealed && (b.epoch == a.epoch || b.epoch == 0)
  }

  ghost predicate SameBackings(s: R.State, t: R.State) {
    && (forall id :: id in t.backings <==> id in s.backings)
    && (forall id :: id in s.backings ==> SameBytes(s.backings[id], t.backings[id]))
    && (forall id :: id in s.backings && !HeldOutside(s, id) ==> t.backings[id].safeAt == s.backings[id].safeAt)
  }

  ghost predicate SameVersions(s: R.State, t: R.State) {
    && (forall v :: v in t.versions <==> v in s.versions)
    && (forall v :: v in s.versions ==> t.versions[v].backing == s.versions[v].backing && t.versions[v].bytes == s.versions[v].bytes)
  }

  ghost predicate SameHandles(s: R.State, t: R.State, acts: seq<R.Action>) {
    && (forall h :: h in R.Own(s.publisher) && h in s.handles ==> h in t.handles && t.handles[h] == s.handles[h])
    && (forall h :: R.Held(t, h) ==> HeldOutside(s, t.handles[h].backing))
    && (forall h :: h in NewHandles(acts) && h in t.handles ==> h in s.handles)
    && (forall h :: h in Heads(acts) && R.Held(s, h) ==> h in t.handles && t.handles[h].backing == s.handles[h].backing)
  }

  ghost predicate Beside(s: R.State, t: R.State, acts: seq<R.Action>) {
    && t.publisher == s.publisher && s.completed <= t.completed
    && SameBackings(s, t) && SameVersions(s, t) && SameHandles(s, t, acts)
  }

  /** What nobody leases alone, nobody does among others. */
  lemma NoLease(s: R.State, t: R.State, acts: seq<R.Action>, id: nat)
    requires R.Inv(s) && R.Inv(t) && Beside(s, t, acts) && id in s.backings && s.backings[id].leases == 0
    ensures t.backings[id].leases == 0 && t.backings[id].safeAt == s.backings[id].safeAt
  {
    forall h | h in s.handles ensures s.handles[h].backing != id { R.LeasesPositive(s.backings, s.handles, h); }
    forall h | h in t.handles ensures t.handles[h].backing != id {
      if h in R.Own(t.publisher) { assert t.handles[h] == s.handles[h]; } else { assert R.Held(t, h) && HeldOutside(s, t.handles[h].backing); }
    }
    assert R.HandlesOn(t.handles, id) == {};
  }

  // ---- another thread's step ----

  /** A bind moves the safe point of a backing someone holds. */
  lemma BindBackings(s: R.State, t: R.State, h: nat, safeAt: nat)
    requires SameBackings(s, t) && R.Enabled(t, R.Bind(h, safeAt)) && HeldOutside(s, t.handles[h].backing)
    ensures SameBackings(s, R.Apply(t, R.Bind(h, safeAt)))
  {}

  lemma LeaseBackings(s: R.State, t: R.State, a: R.Action)
    requires SameBackings(s, t) && R.Enabled(t, a) && (a.Copy? || a.Release?)
    ensures SameBackings(s, R.Apply(t, a))
  {}

  lemma OtherBackings(s: R.State, t: R.State, a: R.Action)
    requires SameBackings(s, t) && R.Enabled(t, a) && (a.Advance? || a.Discard?)
    ensures SameBackings(s, R.Apply(t, a))
  {}

  lemma OthersBackings(s: R.State, t: R.State, a: R.Action)
    requires SameBackings(s, t) && R.Enabled(t, a) && !OwnStep(a)
    requires forall h :: R.Held(t, h) ==> HeldOutside(s, t.handles[h].backing)
    ensures SameBackings(s, R.Apply(t, a))
  {
    match a
    case Bind(h, safeAt) => BindBackings(s, t, h, safeAt);
    case Advance(_) => OtherBackings(s, t, a);
    case Discard(_) => OtherBackings(s, t, a);
    case _ => LeaseBackings(s, t, a);
  }

  lemma OthersVersions(s: R.State, t: R.State, a: R.Action)
    requires SameVersions(s, t) && R.Enabled(t, a) && !OwnStep(a)
    ensures SameVersions(s, R.Apply(t, a))
  {}

  lemma OthersHandles(s: R.State, t: R.State, a: R.Action, acts: seq<R.Action>)
    requires SameHandles(s, t, acts) && t.publisher == s.publisher && R.Own(s.publisher) <= t.handles.Keys
    requires R.Enabled(t, a) && Others(a, acts)
    ensures SameHandles(s, R.Apply(t, a), acts)
  {
    var t' := R.Apply(t, a);
    forall h | R.Held(t', h) ensures HeldOutside(s, t'.handles[h].backing) {
      if a.Copy? && h == a.other { assert R.Held(t, a.h); } else { assert R.Held(t, h); }
    }
  }

  /** Another thread's step changes nothing the publisher looks at. */
  lemma OthersBeside(s: R.State, t: R.State, a: R.Action, acts: seq<R.Action>)
    requires Beside(s, t, acts) && R.Inv(t) && R.Enabled(t, a) && Others(a, acts)
    ensures Beside(s, R.Apply(t, a), acts)
  {
    OthersBackings(s, t, a);
    OthersVersions(s, t, a);
    OthersHandles(s, t, a, acts);
  }

  // ---- the publisher's ----

  lemma StillAppends(s: R.State, t: R.State, a: R.Action, acts: seq<R.Action>)
    requires t.publisher == s.publisher && SameHandles(s, t, acts) && R.Inv(t) && a in acts && a.Append? && R.Enabled(s, a)
    ensures R.Enabled(t, a) && t.handles[a.head].backing == s.handles[a.head].backing
  {
    assert a.h in NewHandles(acts) && a.head in Heads(acts) && R.Held(s, a.head);
    HandleHasBacking(t, a.head);
  }

  lemma StillLeases(s: R.State, t: R.State, a: R.Action, acts: seq<R.Action>)
    requires t.publisher == s.publisher && s.completed <= t.completed && SameHandles(s, t, acts) && SameBackings(s, t)
    requires a in acts && (a.Allocate? || a.Reuse?) && R.Enabled(s, a)
    requires a.Reuse? ==> t.backings[a.id].leases == 0 && t.backings[a.id].safeAt == s.backings[a.id].safeAt
    ensures R.Enabled(t, a)
  {
    assert a.h in NewHandles(acts);
  }

  lemma HandleHasBacking(t: R.State, h: nat)
    requires R.Inv(t) && h in t.handles
    ensures t.handles[h].backing in t.backings
  {}

  lemma StillWrites(s: R.State, t: R.State, a: R.Action, acts: seq<R.Action>)
    requires Beside(s, t, acts) && R.Own(s.publisher) <= s.handles.Keys && OwnStep(a) && !IsTake(a) && R.Enabled(s, a)
    ensures R.Enabled(t, a)
  {}

  /** What the publisher could do alone, it can do. */
  lemma StillEnabled(s: R.State, t: R.State, a: R.Action, acts: seq<R.Action>)
    requires R.Inv(s) && R.Inv(t) && Beside(s, t, acts) && a in acts && OwnStep(a) && R.Enabled(s, a)
    ensures R.Enabled(t, a)
  {
    if a.Append? {
      StillAppends(s, t, a, acts);
    } else if IsTake(a) {
      if a.Reuse? { NoLease(s, t, acts, a.id); }
      StillLeases(s, t, a, acts);
    } else {
      StillWrites(s, t, a, acts);
    }
  }

  /** A publisher's step takes no handle from anyone else. */
  lemma OutsideStays(s: R.State, a: R.Action, id: nat)
    requires R.Own(s.publisher) <= s.handles.Keys && OwnStep(a) && R.Enabled(s, a) && HeldOutside(s, id)
    ensures HeldOutside(R.Apply(s, a), id)
  {
    var h :| R.Held(s, h) && s.handles[h].backing == id;
    assert R.Held(R.Apply(s, a), h) && R.Apply(s, a).handles[h] == s.handles[h];
  }

  lemma TakeBackings(s: R.State, t: R.State, a: R.Action)
    requires SameBackings(s, t) && t.publisher == s.publisher && IsTake(a) && R.Enabled(s, a) && R.Enabled(t, a)
    requires forall id :: HeldOutside(s, id) ==> HeldOutside(R.Apply(s, a), id)
    requires a.Append? ==> t.handles[a.head].backing == s.handles[a.head].backing
    ensures SameBackings(R.Apply(s, a), R.Apply(t, a))
  {}

  lemma WriteBackings(s: R.State, t: R.State, a: R.Action, acts: seq<R.Action>)
    requires SameBackings(s, t) && t.publisher == s.publisher && SameHandles(s, t, acts) && R.Own(s.publisher) <= s.handles.Keys
    requires OwnStep(a) && !IsTake(a) && R.Enabled(s, a) && R.Enabled(t, a)
    requires forall id :: HeldOutside(s, id) ==> HeldOutside(R.Apply(s, a), id)
    ensures SameBackings(R.Apply(s, a), R.Apply(t, a))
  {}

  lemma OwnStepBackings(s: R.State, t: R.State, a: R.Action, acts: seq<R.Action>)
    requires Beside(s, t, acts) && R.Own(s.publisher) <= s.handles.Keys && OwnStep(a) && R.Enabled(s, a) && R.Enabled(t, a)
    requires a.Append? ==> t.handles[a.head].backing == s.handles[a.head].backing
    ensures SameBackings(R.Apply(s, a), R.Apply(t, a))
  {
    forall id | HeldOutside(s, id) ensures HeldOutside(R.Apply(s, a), id) { OutsideStays(s, a, id); }
    if IsTake(a) { TakeBackings(s, t, a); } else { WriteBackings(s, t, a, acts); }
  }

  lemma OwnStepVersions(s: R.State, t: R.State, a: R.Action, acts: seq<R.Action>)
    requires Beside(s, t, acts) && OwnStep(a) && R.Enabled(s, a) && R.Enabled(t, a)
    ensures SameVersions(R.Apply(s, a), R.Apply(t, a))
  {}

  /** The publisher's own handles, and the heads, are the same ones. */
  lemma OwnStepHandlesStay(s: R.State, t: R.State, a: R.Action, acts: seq<R.Action>)
    requires t.publisher == s.publisher && SameHandles(s, t, acts) && R.Own(s.publisher) <= s.handles.Keys
    requires OwnStep(a) && R.Enabled(s, a) && R.Enabled(t, a)
    requires a.Append? ==> t.handles[a.head].backing == s.handles[a.head].backing
    ensures var s', t' := R.Apply(s, a), R.Apply(t, a);
      && (forall h :: h in R.Own(s'.publisher) && h in s'.handles ==> h in t'.handles && t'.handles[h] == s'.handles[h])
      && (forall h :: h in NewHandles(acts) && h in t'.handles ==> h in s'.handles)
      && (forall h :: h in Heads(acts) && R.Held(s', h) ==> h in t'.handles && t'.handles[h].backing == s'.handles[h].backing)
  {}

  lemma OwnStepHandles(s: R.State, t: R.State, a: R.Action, acts: seq<R.Action>)
    requires Beside(s, t, acts) && R.Own(s.publisher) <= s.handles.Keys && R.Own(t.publisher) <= t.handles.Keys
    requires OwnStep(a) && R.Enabled(s, a) && R.Enabled(t, a)
    requires a.Append? ==> t.handles[a.head].backing == s.handles[a.head].backing
    ensures SameHandles(R.Apply(s, a), R.Apply(t, a), acts)
  {
    var s', t' := R.Apply(s, a), R.Apply(t, a);
    OwnStepHandlesStay(s, t, a, acts);
    forall h | R.Held(t', h) ensures HeldOutside(s', t'.handles[h].backing) {
      if R.Held(t, h) {
        OutsideStays(s, a, t.handles[h].backing);
      } else {
        assert R.Held(s', h);
      }
    }
  }

  lemma OwnStepPublisher(s: R.State, t: R.State, a: R.Action)
    requires t.publisher == s.publisher && s.completed <= t.completed && OwnStep(a) && R.Enabled(s, a) && R.Enabled(t, a)
    requires SameBackings(s, t) && (a.Append? ==> t.handles[a.head].backing == s.handles[a.head].backing)
    ensures R.Apply(t, a).publisher == R.Apply(s, a).publisher && R.Apply(s, a).completed <= R.Apply(t, a).completed
  {}

  lemma OwnBeside(s: R.State, t: R.State, a: R.Action, acts: seq<R.Action>)
    requires R.Inv(s) && R.Inv(t) && Beside(s, t, acts) && a in acts && OwnStep(a) && R.Enabled(s, a) && R.Enabled(t, a)
    ensures Beside(R.Apply(s, a), R.Apply(t, a), acts)
  {
    if a.Append? { assert a.head in Heads(acts) && R.Held(s, a.head); }
    OwnStepPublisher(s, t, a);
    OwnStepBackings(s, t, a, acts);
    OwnStepVersions(s, t, a, acts);
    OwnStepHandles(s, t, a, acts);
  }

  // ---- any interleaving ----

  /** The publisher's steps of an interleaving. */
  function OwnOf(steps: seq<R.Action>): seq<R.Action> {
    if steps == [] then []
    else OwnOf(steps[..|steps| - 1]) + if OwnStep(steps[|steps| - 1]) then [steps[|steps| - 1]] else []
  }

  /** The publisher's path so far, in order, with steps of others anywhere between. */
  predicate IsInterleaving(run: seq<R.State>, steps: seq<R.Action>, acts: seq<R.Action>) {
    && |run| == |steps| + 1 && OwnOf(steps) <= acts
    && forall i :: 0 <= i < |steps| ==>
         && R.Enabled(run[i], steps[i]) && run[i + 1] == R.Apply(run[i], steps[i])
         && (OwnStep(steps[i]) || Others(steps[i], acts))
  }

  lemma {:induction false} PathInv(states: seq<R.State>, acts: seq<R.Action>, i: nat)
    requires IsPath(states, acts) && R.Inv(states[0]) && i <= |acts|
    ensures R.Inv(states[i])
  {
    if i > 0 {
      PathInv(states, acts, i - 1);
      R.StepInv(states[i - 1], acts[i - 1]);
    }
  }

  /** However others' steps fall between the publisher's, what it makes is what it makes alone. */
  lemma {:induction false} InterleavedBeside(states: seq<R.State>, acts: seq<R.Action>, run: seq<R.State>, steps: seq<R.Action>)
    requires IsPath(states, acts) && R.Inv(states[0]) && IsInterleaving(run, steps, acts) && run[0] == states[0]
    ensures |OwnOf(steps)| <= |acts| && Beside(states[|OwnOf(steps)|], run[|steps|], acts) && R.Inv(run[|steps|])
    decreases |steps|
  {
    if steps != [] {
      var n, before := |steps| - 1, steps[..|steps| - 1];
      var a, k := steps[n], |OwnOf(before)|;
      InterleavedBeside(states, acts, run[..|steps|], before);
      PathInv(states, acts, k);
      R.StepInv(run[n], a);
      if OwnStep(a) {
        assert OwnOf(steps)[k] == a && acts[k] == a;
        OwnBeside(states[k], run[n], a, acts);
      } else {
        OthersBeside(states[k], run[n], a, acts);
      }
    } else {
      StartsBeside(states[0], acts);
    }
  }

  lemma StartsBeside(s: R.State, acts: seq<R.Action>)
    ensures Beside(s, s, acts)
  {
    forall h | R.Held(s, h) ensures HeldOutside(s, s.handles[h].backing) {}
  }

  /** In any interleaving the publisher is never kept from its next step, and its backings and versions hold what they would alone. */
  lemma PublishesTheSame(states: seq<R.State>, acts: seq<R.Action>, run: seq<R.State>, steps: seq<R.Action>)
    requires IsPath(states, acts) && R.Inv(states[0]) && IsInterleaving(run, steps, acts) && run[0] == states[0]
    ensures var n, e := |OwnOf(steps)|, run[|steps|];
      && n <= |acts| && (n < |acts| ==> R.Enabled(e, acts[n])) && e.publisher == states[n].publisher
      && (forall id :: id in states[n].backings ==> id in e.backings && SameBytes(states[n].backings[id], e.backings[id]))
      && (forall v :: v in states[n].versions ==>
            v in e.versions && e.versions[v].backing == states[n].versions[v].backing && e.versions[v].bytes == states[n].versions[v].bytes)
  {
    InterleavedBeside(states, acts, run, steps);
    var n := |OwnOf(steps)|;
    PathInv(states, acts, n);
    if n < |acts| { StillEnabled(states[n], run[|steps|], acts[n], acts); }
  }

  /** The publisher got to the end of its path. */
  predicate Completes(run: seq<R.State>, steps: seq<R.Action>, acts: seq<R.Action>, s: R.State) {
    IsInterleaving(run, steps, acts) && run[0] == s && OwnOf(steps) == acts
  }

  /** What the class holds of the parts reached, the run does too. */
  ghost predicate Keeps(e: R.State, requests: seq<Request>, acquired: seq<Acquired>, plans: seq<Plan>, reached: nat)
    requires |requests| == |acquired| == |plans| && reached <= |plans|
    reads TakenSet(requests, acquired)`memory, TakenSet(requests, acquired)`sealedBytes
  {
    forall i :: 0 <= i < reached && Taken(requests[i], acquired[i]) != null ==>
      var id, backing := plans[i].id, Taken(requests[i], acquired[i]);
      id in e.backings && e.backings[id].memory == backing.memory && e.backings[id].sealed == backing.sealedBytes
  }

  /** And it has every part's version. */
  ghost predicate NamesAll(e: R.State, parts: seq<PartState>, requests: seq<Request>, acquired: seq<Acquired>, plans: seq<Plan>)
    requires |parts| == |requests| == |acquired| == |plans|
    reads TakenSet(requests, acquired)`memory
  {
    forall i :: 0 <= i < |plans| && Taken(requests[i], acquired[i]) != null ==>
      Names(e, plans[i].v, plans[i].id, Taken(requests[i], acquired[i]), UnitBytes(parts[i], requests[i].units))
  }

  /** A publication of the class, with the other threads' steps falling anywhere between the publisher's: whatever they are, the run ends
      with what the backings hold, and with each part's version of it. */
  method PublishAmongOthers(journaled: JournaledBufferSet, requests: seq<Request>, acquired: seq<Acquired>, ghost s: R.State,
      ghost plans: seq<Plan>) returns (publication: Publication, ghost states: seq<R.State>, ghost acts: seq<R.Action>, ghost reached: nat)
    requires |acquired| == |requests| == |journaled.parts| == |plans| && OwnBackings(requests, acquired) && s.publisher.Idle? && R.Inv(s)
    requires PlansApart(requests, acquired, plans)
    requires forall i :: 0 <= i < |plans| ==> Ready(s.(publisher := R.Between({})), journaled.parts[i], requests[i], acquired[i], plans[i])
    modifies journaled, TakenSet(requests, acquired)`memory, TakenSet(requests, acquired)`sealedBytes, TakenSet(requests, acquired)`contentEpoch
    ensures IsPath(states, acts) && states[0] == s && reached <= |plans| && (publication.Published? ==> reached == |plans|)
    ensures forall run, steps :: Completes(run, steps, acts, s) ==> Keeps(run[|steps|], requests, acquired, plans, reached)
    ensures publication.Published? ==>
      forall run, steps :: Completes(run, steps, acts, s) ==> NamesAll(run[|steps|], old(journaled.parts), requests, acquired, plans)
  {
    ghost var parts := journaled.parts;
    publication, states, acts, reached := PublishIsSteps(journaled, requests, acquired, s, plans);
    forall run: seq<R.State>, steps: seq<R.Action> | Completes(run, steps, acts, s)
      ensures Keeps(run[|steps|], requests, acquired, plans, reached)
      ensures publication.Published? ==> NamesAll(run[|steps|], parts, requests, acquired, plans)
    {
      PublishesTheSame(states, acts, run, steps);
    }
  }
}
