/** A whole publication of JournaledBufferSet is a path of JournaledSetRun's steps: each part taken, written and sealed in turn, or the
    throw path over all that was taken. */
module JournaledPublication {
  import opened Bytes
  import opened BackingMemory
  import opened GrowthPolicy
  import opened JournaledBufferSet
  import opened JournaledSetRefinement
  import R = JournaledSetRun

  /** The action that takes a part's backing, its name in the run, and the version it is to become. */
  datatype Plan = Plan(a: R.Action, id: nat, v: nat)

  /** A part that was absent, or what its emit made of the backing it took. */
  datatype Part =
    | Skip
    | Made(plan: Plan, former: seq<byte>, memory: seq<byte>, floor: nat, runs: seq<Run>, bytes: nat, epoch: nat)

  predicate IsTake(a: R.Action) {
    a.Append? || a.Allocate? || a.Reuse?
  }

  ghost predicate CanTake(s: R.State, plan: Plan, former: seq<byte>, floor: nat) {
    && IsTake(plan.a) && R.Enabled(s, plan.a) && Emitting(R.Apply(s, plan.a), plan.id, plan.a.h, |former|, former, floor)
    && s.publisher.Between? && plan.v !in s.versions
  }

  ghost predicate MadeOk(s: R.State, m: Part) {
    m.Made? ==>
      && CanTake(s, m.plan, m.former, m.floor) && m.bytes <= |m.former|
      && RunsFit(m.runs, m.floor, |m.former|) && m.memory == Written(m.former, m.runs)
  }

  predicate ApartPlans(a: Plan, b: Plan) {
    a.id != b.id && a.v != b.v && (IsTake(a.a) && IsTake(b.a) ==> a.a.h != b.a.h)
  }

  predicate ApartParts(ms: seq<Part>) {
    forall i, j :: 0 <= i < j < |ms| && ms[i].Made? && ms[j].Made? ==> ApartPlans(ms[i].plan, ms[j].plan)
  }

  /** The state with the part sealed, told outright. */
  ghost predicate SealedBy(s: R.State, e: R.State, m: Part)
    requires m.Made? && IsTake(m.plan.a) && s.publisher.Between?
  {
    && e.completed == s.completed && e.publisher == R.Between(s.publisher.leases + {m.plan.a.h})
    && e.versions == s.versions[m.plan.v := R.Version(m.plan.id, m.memory[..Min(m.bytes, |m.memory|)], 0)]
    && e.handles == s.handles[m.plan.a.h := R.Handle(m.plan.id, Option.Some(m.plan.v))]
    && m.plan.id in e.backings && e.backings == s.backings[m.plan.id := e.backings[m.plan.id]]
    && var b := e.backings[m.plan.id];
       b.memory == m.memory && b.capacity == |m.former| && b.epoch == m.epoch && b.sealed == Max(m.floor, m.bytes)
  }

  /** A part taken, written and sealed. */
  lemma OnePart(states: seq<R.State>, acts: seq<R.Action>, m: Part) returns (states': seq<R.State>, acts': seq<R.Action>)
    requires IsPath(states, acts) && m.Made? && MadeOk(states[|acts|], m)
    ensures IsPath(states', acts') && states'[0] == states[0] && SealedBy(states[|acts|], states'[|acts'|], m)
  {
    states', acts' := Go(states, acts, m.plan.a);
    states', acts' := RunsAreWrites(states', acts', m.runs);
    states', acts' := Go(states', acts', R.Seal(m.bytes, m.epoch, m.plan.v));
  }

  /** Sealing one part leaves another's take as it was. */
  lemma TakesStay(s: R.State, e: R.State, m: Part, n: Part)
    requires m.Made? && MadeOk(s, m) && SealedBy(s, e, m) && MadeOk(s, n) && (n.Made? ==> ApartPlans(m.plan, n.plan))
    ensures MadeOk(e, n)
  {}

  /** What the end of the path says of a part it made. */
  ghost predicate Holds(e: R.State, m: Part) {
    m.Made? ==>
      && IsTake(m.plan.a) && m.plan.a.h in e.handles && e.handles[m.plan.a.h].backing == m.plan.id
      && m.plan.a.h in R.Own(e.publisher)
      && m.plan.v in e.versions && m.plan.id in e.backings
      && e.versions[m.plan.v] == R.Version(m.plan.id, m.memory[..Min(m.bytes, |m.memory|)], 0)
      && Left(e.backings[m.plan.id], m, m.epoch)
  }

  predicate Left(b: R.Backing, m: Part, epoch: nat)
    requires m.Made?
  {
    b.memory == m.memory && b.capacity == |m.former| && b.sealed == Max(m.floor, m.bytes) && b.epoch == epoch
  }

  predicate NotIn(ms: seq<Part>, id: nat) {
    forall i :: 0 <= i < |ms| && ms[i].Made? ==> ms[i].plan.id != id
  }

  /** What was there before, the parts leave alone. */
  ghost predicate Around(s: R.State, e: R.State, ms: seq<Part>) {
    && s.publisher.Between? && e.publisher.Between? && s.publisher.leases <= e.publisher.leases
    && (forall h :: h in s.handles ==> h in e.handles && e.handles[h] == s.handles[h])
    && (forall v :: v in s.versions ==> v in e.versions && e.versions[v] == s.versions[v])
    && (forall id :: id in s.backings && NotIn(ms, id) ==> id in e.backings && e.backings[id] == s.backings[id])
    && (forall h :: h in e.publisher.leases && h !in s.publisher.leases ==> h in e.handles && e.handles[h].backing in e.backings)
    && (forall id :: id in s.backings ==> id in e.backings)
  }

  lemma SealedAround(s: R.State, e: R.State, m: Part, ms: seq<Part>)
    requires m.Made? && MadeOk(s, m) && SealedBy(s, e, m) && m in ms
    ensures Around(s, e, ms) && Holds(e, m)
  {
    forall id | id in s.backings && NotIn(ms, id) ensures id in e.backings && e.backings[id] == s.backings[id] {}
  }

  /** A later part leaves what an earlier one made. */
  lemma HoldsOn(s: R.State, e: R.State, m: Part, rest: seq<Part>)
    requires Holds(s, m) && Around(s, e, rest) && (m.Made? ==> NotIn(rest, m.plan.id))
    ensures Holds(e, m)
  {}

  lemma AroundTwice(s: R.State, mid: R.State, e: R.State, ms: seq<Part>)
    requires ms != [] && Around(s, mid, ms[..1]) && Around(mid, e, ms[1..])
    ensures Around(s, e, ms)
  {
    forall id | id in s.backings && NotIn(ms, id) ensures id in e.backings && e.backings[id] == s.backings[id] {
      assert NotIn(ms[..1], id) && NotIn(ms[1..], id);
    }
  }

  /** The parts in order; what may follow them (`last`) can still be taken. */
  lemma {:induction false} PartsPath(states: seq<R.State>, acts: seq<R.Action>, ms: seq<Part>, last: Part)
      returns (states': seq<R.State>, acts': seq<R.Action>)
    requires IsPath(states, acts) && states[|acts|].publisher.Between? && ApartParts(ms + [last])
    requires MadeOk(states[|acts|], last) && forall i :: 0 <= i < |ms| ==> MadeOk(states[|acts|], ms[i])
    ensures IsPath(states', acts') && states'[0] == states[0] && Around(states[|acts|], states'[|acts'|], ms)
    ensures MadeOk(states'[|acts'|], last) && forall i :: 0 <= i < |ms| ==> Holds(states'[|acts'|], ms[i])
    decreases |ms|
  {
    states', acts' := states, acts;
    if ms != [] {
      var s, m, rest := states[|acts|], ms[0], ms[1..];
      states', acts' := FirstPart(states, acts, ms, last);
      var mid := states'[|acts'|];
      RestApart(ms, last);
      states', acts' := PartsPath(states', acts', rest, last);
      HoldsOn(mid, states'[|acts'|], m, rest);
      AroundTwice(s, mid, states'[|acts'|], ms);
    }
  }

  lemma FirstPart(states: seq<R.State>, acts: seq<R.Action>, ms: seq<Part>, last: Part)
      returns (states': seq<R.State>, acts': seq<R.Action>)
    requires IsPath(states, acts) && states[|acts|].publisher.Between? && ms != [] && ApartParts(ms + [last])
    requires MadeOk(states[|acts|], last) && forall i :: 0 <= i < |ms| ==> MadeOk(states[|acts|], ms[i])
    ensures IsPath(states', acts') && states'[0] == states[0] && Around(states[|acts|], states'[|acts'|], ms[..1])
    ensures Holds(states'[|acts'|], ms[0]) && MadeOk(states'[|acts'|], last)
    ensures forall i :: 0 <= i < |ms[1..]| ==> MadeOk(states'[|acts'|], ms[1..][i])
  {
    var s, m, all := states[|acts|], ms[0], ms + [last];
    states', acts' := states, acts;
    if m.Made? {
      states', acts' := OnePart(states, acts, m);
      var e := states'[|acts'|];
      SealedAround(s, e, m, ms[..1]);
      forall k | 0 < k < |all| ensures MadeOk(e, all[k]) {
        assert all[0] == m;
        TakesStay(s, e, m, all[k]);
      }
      assert all[|ms|] == last && forall i :: 0 <= i < |ms[1..]| ==> ms[1..][i] == all[i + 1];
    }
  }

  lemma RestApart(ms: seq<Part>, last: Part)
    requires ms != [] && ApartParts(ms + [last])
    ensures ApartParts(ms[1..] + [last]) && (ms[0].Made? ==> NotIn(ms[1..], ms[0].plan.id))
  {
    var all := ms + [last];
    assert all[1..] == ms[1..] + [last] && all[0] == ms[0];
    forall i | 0 <= i < |ms[1..]| ensures ms[1..][i] == all[i + 1] {}
  }

  /** The throw path drops every lease it holds: each of their backings holds nothing afterwards, and nothing else changes. */
  lemma {:induction false} DropsAll(states: seq<R.State>, acts: seq<R.Action>) returns (states': seq<R.State>, acts': seq<R.Action>)
    requires IsPath(states, acts) && states[|acts|].publisher.Unwinding?
    requires var s := states[|acts|]; forall h :: h in s.publisher.leases ==> h in s.handles && s.handles[h].backing in s.backings
    ensures IsPath(states', acts') && states'[0] == states[0] && DroppedAll(states[|acts|], states'[|acts'|])
    decreases |states[|acts|].publisher.leases|
  {
    var s := states[|acts|];
    if s.publisher.leases == {} {
      states', acts' := Go(states, acts, R.Unwound);
    } else {
      var h :| h in s.publisher.leases;
      states', acts' := Go(states, acts, R.DropOne(h));
      var mid := states'[|acts'|];
      assert |s.publisher.leases - {h}| < |s.publisher.leases|;
      states', acts' := DropsAll(states', acts');
      OneDropped(s, mid, states'[|acts'|], h);
    }
  }

  /** The unwinding publisher leases it still. */
  ghost predicate StillLeases(s: R.State, id: nat)
    requires s.publisher.Unwinding?
  {
    exists h :: h in s.publisher.leases && h in s.handles && s.handles[h].backing == id
  }

  lemma OneDropped(s: R.State, mid: R.State, e: R.State, h: nat)
    requires R.Enabled(s, R.DropOne(h)) && mid == R.Apply(s, R.DropOne(h)) && DroppedAll(mid, e)
    ensures DroppedAll(s, e)
  {
    forall id | id in s.backings
      ensures id in mid.backings && Same(s.backings[id], mid.backings[id])
      ensures StillLeases(s, id) <==> s.handles[h].backing == id || StillLeases(mid, id)
      ensures mid.backings[id].epoch == if s.handles[h].backing == id then 0 else s.backings[id].epoch
    {
      if StillLeases(s, id) && s.handles[h].backing != id {
        var g :| g in s.publisher.leases && g in s.handles && s.handles[g].backing == id;
        assert g in mid.publisher.leases && g in mid.handles && mid.handles[g].backing == id;
      }
      if StillLeases(mid, id) {
        var g :| g in mid.publisher.leases && g in mid.handles && mid.handles[g].backing == id;
        assert g in s.publisher.leases && g in s.handles && s.handles[g].backing == id;
      }
    }
  }

  ghost predicate DroppedAll(s: R.State, e: R.State)
    requires s.publisher.Unwinding?
  {
    && e.publisher.Idle? && e.versions == s.versions
    && forall id :: id in s.backings ==>
         && id in e.backings && Same(s.backings[id], e.backings[id])
         && e.backings[id].epoch == if StillLeases(s, id) then 0 else s.backings[id].epoch
  }

  predicate Same(a: R.Backing, b: R.Backing) {
    a.memory == b.memory && a.capacity == b.capacity && a.sealed == b.sealed
  }

  /** A part throws: it took nothing, or its emit ended after some of its runs; then everything taken is let go, holding nothing. */
  lemma ThrowsPath(states: seq<R.State>, acts: seq<R.Action>, ms: seq<Part>, last: Part)
      returns (states': seq<R.State>, acts': seq<R.Action>)
    requires IsPath(states, acts) && states[|acts|].publisher.Between? && states[|acts|].publisher.leases == {}
    requires ApartParts(ms + [last])
    requires MadeOk(states[|acts|], last) && forall i :: 0 <= i < |ms| ==> MadeOk(states[|acts|], ms[i])
    ensures IsPath(states', acts') && states'[0] == states[0] && states'[|acts'|].publisher.Idle?
    ensures forall i :: 0 <= i < |ms| && ms[i].Made? ==>
      ms[i].plan.id in states'[|acts'|].backings && Left(states'[|acts'|].backings[ms[i].plan.id], ms[i], 0)
    ensures last.Made? ==> last.plan.id in states'[|acts'|].backings && Landed(states'[|acts'|].backings[last.plan.id], last)
  {
    states', acts' := PartsPath(states, acts, ms, last);
    var mid := states'[|acts'|];
    states', acts' := LastThrows(states', acts', ms, last);
    var thrown := states'[|acts'|];
    states', acts' := DropsAll(states', acts');
    var e := states'[|acts'|];
    forall i | 0 <= i < |ms| && ms[i].Made? ensures ms[i].plan.id in e.backings && Left(e.backings[ms[i].plan.id], ms[i], 0) {
      assert Leaves(thrown, ms[i]) && ms[i].plan.a.h in thrown.publisher.leases && StillLeases(thrown, ms[i].plan.id);
    }
    if last.Made? { assert StillLeases(thrown, last.plan.id); }
  }

  predicate Landed(b: R.Backing, m: Part)
    requires m.Made?
  {
    b.memory == m.memory && b.capacity == |m.former| && b.sealed == m.floor && b.epoch == 0
  }

  /** A part made is still leased by the publisher. */
  ghost predicate Leaves(s: R.State, m: Part) {
    m.Made? && s.publisher.Unwinding? ==>
      && IsTake(m.plan.a) && m.plan.a.h in s.publisher.leases && m.plan.a.h in s.handles && s.handles[m.plan.a.h].backing == m.plan.id
      && m.plan.id in s.backings && Left(s.backings[m.plan.id], m, m.epoch)
  }

  lemma LastThrows(states: seq<R.State>, acts: seq<R.Action>, ms: seq<Part>, last: Part)
      returns (states': seq<R.State>, acts': seq<R.Action>)
    requires IsPath(states, acts) && states[|acts|].publisher.Between? && ApartParts(ms + [last]) && MadeOk(states[|acts|], last)
    requires forall i :: 0 <= i < |ms| ==> Holds(states[|acts|], ms[i])
    requires var s := states[|acts|]; forall h :: h in s.publisher.leases ==> h in s.handles && s.handles[h].backing in s.backings
    ensures IsPath(states', acts') && states'[0] == states[0] && states'[|acts'|].publisher.Unwinding?
    ensures var s := states'[|acts'|]; forall h :: h in s.publisher.leases ==> h in s.handles && s.handles[h].backing in s.backings
    ensures forall i :: 0 <= i < |ms| ==> Leaves(states'[|acts'|], ms[i])
    ensures last.Made? ==>
      && last.plan.id in states'[|acts'|].backings && Landed(states'[|acts'|].backings[last.plan.id], last)
      && last.plan.a.h in states'[|acts'|].publisher.leases && last.plan.a.h in states'[|acts'|].handles
      && states'[|acts'|].handles[last.plan.a.h].backing == last.plan.id
  {
    states', acts' := states, acts;
    if last.Made? {
      states', acts' := Go(states', acts', last.plan.a);
      states', acts' := RunsAreWrites(states', acts', last.runs);
      forall i | 0 <= i < |ms| && ms[i].Made? ensures ms[i].plan.id != last.plan.id {
        assert (ms + [last])[i] == ms[i] && (ms + [last])[|ms|] == last;
      }
    }
    states', acts' := Go(states', acts', R.Throw);
  }

  // ---- what Publish did, as parts ----

  /** The part as Publish left its backing. */
  function PartOf(part: PartState, request: Request, acquired: Acquired, plan: Plan, version: Version, was: Held, now: Held): Part {
    if Taken(request, acquired) == null then Skip
    else Part.Made(plan, was.memory, now.memory, SealedFrom(request, was.sealed), version.runs, UnitBytes(part, request.units), now.epoch)
  }

  /** The pools and the plan are ready for the part. */
  ghost predicate Ready(begun: R.State, part: PartState, request: Request, acquired: Acquired, plan: Plan)
    reads TakenIn(request, acquired)
  {
    && Fitting(part, request, acquired) && LeaseFits(part, request, acquired)
    && (Taken(request, acquired) != null ==> TakenBy(begun, plan.a, request, acquired, plan.id) && plan.v !in begun.versions)
  }

  /** What that means of what the backing holds. */
  ghost predicate Readied(begun: R.State, part: PartState, request: Request, acquired: Acquired, plan: Plan, was: Held) {
    LeaseFits(part, request, acquired) &&
    (Taken(request, acquired) != null ==>
      CanTake(begun, plan, was.memory, SealedFrom(request, was.sealed)) && |was.memory| == Taken(request, acquired).byteCapacity)
  }

  lemma ReadyCanTake(begun: R.State, part: PartState, request: Request, acquired: Acquired, plan: Plan)
    requires Ready(begun, part, request, acquired, plan) && begun.publisher.Between?
    ensures Readied(begun, part, request, acquired, plan, Now(request, acquired))
  {
    if Taken(request, acquired) != null { TakesToEmit(part, request, acquired, begun, plan.a, plan.id); }
  }

  lemma WrittenIsMade(begun: R.State, part: PartState, request: Request, acquired: Acquired, plan: Plan, version: Version, was: Held, now: Held)
    requires Readied(begun, part, request, acquired, plan, was) && PartWritten(part, request, acquired, version, was, now)
    ensures var m := PartOf(part, request, acquired, plan, version, was, now);
      MadeOk(begun, m) && Shows(m, part, request, acquired, plan, now)
  {
    if Taken(request, acquired) != null { UnitsFit(part, request, acquired); }
  }

  /** An emit that ended after some of its calls, as a part. */
  lemma ThrownIsMade(begun: R.State, part: PartState, request: Request, acquired: Acquired, plan: Plan, was: Held, now: Held)
      returns (last: Part)
    requires Readied(begun, part, request, acquired, plan, was) && PartThrown(part, request, acquired, true, was, now)
    ensures MadeOk(begun, last) && ShowsThrown(last, request, acquired, plan, now)
  {
    var floor, calls := SealedFrom(request, was.sealed), request.emit.script(TargetOf(part, request, acquired, was.epoch)).calls;
    var n: nat :| LandedUpTo(was.memory, now.memory, floor, calls, n);
    last := Part.Made(plan, was.memory, now.memory, floor, AllRuns(calls[..n]), 0, 0);
  }

  /** The part as its backing holds it. */
  predicate Shows(m: Part, part: PartState, request: Request, acquired: Acquired, plan: Plan, now: Held) {
    && (m.Made? <==> Taken(request, acquired) != null)
    && (m.Made? ==>
          && m.plan == plan && m.memory == now.memory && |m.former| == Taken(request, acquired).byteCapacity
          && m.bytes == UnitBytes(part, request.units) && now.sealed == Max(m.floor, m.bytes) && now.epoch == m.epoch)
  }

  /** The part that threw once it had its backing. */
  predicate ShowsThrown(m: Part, request: Request, acquired: Acquired, plan: Plan, now: Held) {
    && Taken(request, acquired) != null && m.Made? && m.plan == plan
    && m.memory == now.memory && |m.former| == Taken(request, acquired).byteCapacity && now.sealed == m.floor && now.epoch == 0
  }

  /** The parts made, in order. */
  lemma {:induction false} AllMade(begun: R.State, parts: seq<PartState>, requests: seq<Request>, acquired: seq<Acquired>, plans: seq<Plan>,
      versions: seq<Version>, was: seq<Held>, now: seq<Held>) returns (ms: seq<Part>)
    requires |versions| <= |parts| == |requests| == |acquired| == |plans| == |was| == |now|
    requires forall i :: 0 <= i < |versions| ==> Readied(begun, parts[i], requests[i], acquired[i], plans[i], was[i])
    requires forall i :: 0 <= i < |versions| ==> PartWritten(parts[i], requests[i], acquired[i], versions[i], was[i], now[i])
    ensures |ms| == |versions|
    ensures forall i :: 0 <= i < |ms| ==> MadeOk(begun, ms[i]) && Shows(ms[i], parts[i], requests[i], acquired[i], plans[i], now[i])
    decreases |versions|
  {
    ms := [];
    if versions != [] {
      var n := |versions| - 1;
      ms := AllMade(begun, parts, requests, acquired, plans, versions[..n], was, now);
      WrittenIsMade(begun, parts[n], requests[n], acquired[n], plans[n], versions[n], was[n], now[n]);
      ms := ms + [PartOf(parts[n], requests[n], acquired[n], plans[n], versions[n], was[n], now[n])];
    }
  }

  /** The parts made, and the one that threw when it had its backing. */
  lemma MadeAndThrown(begun: R.State, parts: seq<PartState>, requests: seq<Request>, acquired: seq<Acquired>, plans: seq<Plan>,
      versions: seq<Version>, thrown: bool, was: seq<Held>, now: seq<Held>) returns (ms: seq<Part>, last: Part)
    requires |versions| <= |parts| == |requests| == |acquired| == |plans| == |was| == |now|
    requires forall i :: 0 <= i < |parts| ==> Readied(begun, parts[i], requests[i], acquired[i], plans[i], was[i])
    requires forall i :: 0 <= i < |versions| ==> PartWritten(parts[i], requests[i], acquired[i], versions[i], was[i], now[i])
    requires thrown ==> var n := |versions|; n < |parts| && PartThrown(parts[n], requests[n], acquired[n], true, was[n], now[n])
    ensures |ms| == |versions| && MadeOk(begun, last) && if thrown then last.Made? else last == Skip
    ensures forall i :: 0 <= i < |ms| ==> MadeOk(begun, ms[i]) && Shows(ms[i], parts[i], requests[i], acquired[i], plans[i], now[i])
    ensures thrown ==> var n := |ms|; ShowsThrown(last, requests[n], acquired[n], plans[n], now[n])
  {
    ms := AllMade(begun, parts, requests, acquired, plans, versions, was, now);
    last := Skip;
    if thrown {
      var n := |versions|;
      last := ThrownIsMade(begun, parts[n], requests[n], acquired[n], plans[n], was[n], now[n]);
    }
  }

  /** No two present parts share a backing's name, a handle or a version. */
  predicate PlansApart(requests: seq<Request>, acquired: seq<Acquired>, plans: seq<Plan>)
    requires |requests| == |acquired| == |plans|
  {
    forall i, j :: 0 <= i < j < |plans| && Taken(requests[i], acquired[i]) != null && Taken(requests[j], acquired[j]) != null ==>
      ApartPlans(plans[i], plans[j])
  }

  /** Publish, told by what the backings hold before and after it. */
  method PublishHeld(journaled: JournaledBufferSet, requests: seq<Request>, acquired: seq<Acquired>, ghost was: seq<Held>)
      returns (publication: Publication, ghost made: seq<Version>, ghost thrown: bool, ghost now: seq<Held>)
    requires |acquired| == |requests| == |journaled.parts| && OwnBackings(requests, acquired) && was == AllNow(requests, acquired)
    requires forall i :: 0 <= i < |requests| ==> Fitting(journaled.parts[i], requests[i], acquired[i])
    modifies journaled, TakenSet(requests, acquired)`memory, TakenSet(requests, acquired)`sealedBytes, TakenSet(requests, acquired)`contentEpoch
    ensures now == AllNow(requests, acquired) && !publication.InvalidArgument? && |made| <= |requests|
    ensures publication.Published? ==> |made| == |requests| && !thrown
    ensures forall i :: 0 <= i < |made| ==> PartWritten(old(journaled.parts)[i], requests[i], acquired[i], made[i], was[i], now[i])
    ensures thrown ==> var n := |made|;
      n < |requests| && PartThrown(old(journaled.parts)[n], requests[n], acquired[n], true, was[n], now[n])
    ensures forall i :: (if thrown then |made| + 1 else |made|) <= i < |requests| ==> now[i] == was[i]
    ensures publication.Failed? ==> forall i :: 0 <= i < |made| && requests[i].emit.Emits? ==> now[i].epoch == 0
  {
    ghost var taken: bool;
    publication, made, taken := journaled.Publish(requests, acquired);
    now, thrown := AllNow(requests, acquired), publication.Failed? && taken;
  }

  /** Publish, and what it made of each part up to the one that threw. */
  method PublishMakes(journaled: JournaledBufferSet, requests: seq<Request>, acquired: seq<Acquired>, ghost begun: R.State,
      ghost plans: seq<Plan>) returns (publication: Publication, ghost ms: seq<Part>, ghost last: Part)
    requires |acquired| == |requests| == |journaled.parts| == |plans| && OwnBackings(requests, acquired) && begun.publisher.Between?
    requires forall i :: 0 <= i < |plans| ==> Ready(begun, journaled.parts[i], requests[i], acquired[i], plans[i])
    modifies journaled, TakenSet(requests, acquired)`memory, TakenSet(requests, acquired)`sealedBytes, TakenSet(requests, acquired)`contentEpoch
    ensures !publication.InvalidArgument? && |ms| <= |plans|
    ensures forall i :: 0 <= i < |ms| ==>
      MadeOk(begun, ms[i]) && Shows(ms[i], old(journaled.parts)[i], requests[i], acquired[i], plans[i], Now(requests[i], acquired[i]))
    ensures MadeOk(begun, last) && (last.Made? ==> |ms| < |plans|)
    ensures last.Made? ==> var n := |ms|; ShowsThrown(last, requests[n], acquired[n], plans[n], Now(requests[n], acquired[n]))
    ensures forall i :: (if last.Made? then |ms| + 1 else |ms|) <= i < |plans| ==>
      Now(requests[i], acquired[i]) == old(Now(requests[i], acquired[i]))
    ensures publication.Published? ==> |ms| == |plans| && last == Skip
    ensures publication.Failed? ==> forall i :: 0 <= i < |ms| && ms[i].Made? ==> ms[i].epoch == 0
  {
    ghost var parts, was := journaled.parts, AllNow(requests, acquired);
    forall i | 0 <= i < |plans| ensures Readied(begun, parts[i], requests[i], acquired[i], plans[i], was[i]) {
      ReadyCanTake(begun, parts[i], requests[i], acquired[i], plans[i]);
    }
    ghost var made: seq<Version>, thrown: bool, now: seq<Held>;
    publication, made, thrown, now := PublishHeld(journaled, requests, acquired, was);
    ms, last := MadeAndThrown(begun, parts, requests, acquired, plans, made, thrown, was, now);
  }

  lemma PartsApart(requests: seq<Request>, acquired: seq<Acquired>, plans: seq<Plan>, ms: seq<Part>, last: Part)
    requires |requests| == |acquired| == |plans| && |ms| <= |plans| && PlansApart(requests, acquired, plans)
    requires forall i :: 0 <= i < |ms| && ms[i].Made? ==> Taken(requests[i], acquired[i]) != null && ms[i].plan == plans[i]
    requires last.Made? ==> |ms| < |plans| && Taken(requests[|ms|], acquired[|ms|]) != null && last.plan == plans[|ms|]
    ensures ApartParts(ms + [last])
  {
    var all := ms + [last];
    forall i | 0 <= i < |all| && all[i].Made? ensures i < |plans| && Taken(requests[i], acquired[i]) != null && all[i].plan == plans[i] {
      assert i < |ms| ==> all[i] == ms[i];
    }
  }

  /** A whole publication: Begin, each part's take, writes and seal, and Finish; or up to the part that throws, and the throw path. What the
      path ends with is what the backings hold; a failed one leaves nothing of those it reached to catch up from. */
  method PublishIsSteps(journaled: JournaledBufferSet, requests: seq<Request>, acquired: seq<Acquired>, ghost s: R.State,
      ghost plans: seq<Plan>) returns (publication: Publication, ghost states: seq<R.State>, ghost acts: seq<R.Action>, ghost reached: nat)
    requires |acquired| == |requests| == |journaled.parts| == |plans| && OwnBackings(requests, acquired) && s.publisher.Idle?
    requires PlansApart(requests, acquired, plans)
    requires forall i :: 0 <= i < |plans| ==> Ready(s.(publisher := R.Between({})), journaled.parts[i], requests[i], acquired[i], plans[i])
    modifies journaled, TakenSet(requests, acquired)`memory, TakenSet(requests, acquired)`sealedBytes, TakenSet(requests, acquired)`contentEpoch
    ensures IsPath(states, acts) && states[0] == s && states[|acts|].publisher.Idle? && reached <= |plans|
    ensures publication.Published? ==> reached == |plans|
    ensures forall i :: 0 <= i < reached && Taken(requests[i], acquired[i]) != null ==>
      Abstracts(states[|acts|], plans[i].id, Taken(requests[i], acquired[i]))
    ensures forall i :: reached <= i < |plans| ==> Now(requests[i], acquired[i]) == old(Now(requests[i], acquired[i]))
    ensures publication.Published? ==> forall i :: 0 <= i < |plans| && Taken(requests[i], acquired[i]) != null ==>
      Names(states[|acts|], plans[i].v, plans[i].id, Taken(requests[i], acquired[i]), UnitBytes(old(journaled.parts)[i], requests[i].units))
    ensures publication.Failed? ==> forall i :: 0 <= i < reached && Taken(requests[i], acquired[i]) != null ==>
      Taken(requests[i], acquired[i]).contentEpoch == 0
  {
    ghost var ms: seq<Part>, last: Part;
    publication, ms, last := PublishMakes(journaled, requests, acquired, s.(publisher := R.Between({})), plans);
    reached := if last.Made? then |ms| + 1 else |ms|;
    PartsApart(requests, acquired, plans, ms, last);
    states, acts := Go([s], [], R.Begin);
    if publication.Published? {
      states, acts := PartsPath(states, acts, ms, last);
      forall i | 0 <= i < |ms| && ms[i].Made? ensures Holds(states[|acts|], ms[i]) {}
      states, acts := Go(states, acts, R.Finish);
    } else {
      states, acts := ThrowsPath(states, acts, ms, last);
    }
  }
}
