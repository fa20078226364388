/** A journaled buffer set's runs, seen from the calls made so far: which leases there are, what a frame's binding holds, when a backing
    may be leased again, and what epoch it claims (src/JournaledBufferSet.cpp, src/BackingPool.cpp). */
module JournaledSetCalls {
  import opened Bytes
  import opened JournaledSetRun

  // ---- leases ----

  predicate Takes(a: Action, h: nat) {
    match a
    case Allocate(_, k, _) => k == h
    case Reuse(_, k) => k == h
    case Append(_, k) => k == h
    case Copy(_, other) => other == h
    case _ => false
  }

  predicate Drops(a: Action, h: nat) {
    a == DropOne(h) || a == Release(h)
  }

  /** By the first n steps the lease was taken, and not dropped since. */
  predicate IsTaken(acts: seq<Action>, n: nat, h: nat)
    requires n <= |acts|
  {
    n != 0 && (Takes(acts[n - 1], h) || (IsTaken(acts, n - 1, h) && !Drops(acts[n - 1], h)))
  }

  lemma StepLeases(s: State, a: Action, h: nat)
    requires Inv(s) && Enabled(s, a)
    ensures h in Apply(s, a).handles <==> Takes(a, h) || (h in s.handles && !Drops(a, h))
  {}

  /** The leases are those taken and not dropped. */
  lemma {:induction false} LeasesFromCalls(run: seq<State>, acts: seq<Action>, n: nat, h: nat)
    requires IsRun(run, acts) && n < |run|
    ensures h in run[n].handles <==> IsTaken(acts, n, h)
  {
    if n > 0 {
      LeasesFromCalls(run, acts, n - 1, h);
      RunInv(run, acts, n - 1);
      StepLeases(run[n - 1], acts[n - 1], h);
    }
  }

  lemma StepKeepsLease(s: State, a: Action, h: nat)
    requires Inv(s) && Enabled(s, a) && h in s.handles && s.handles[h].version.Some? && !Drops(a, h)
    ensures h in Apply(s, a).handles && Apply(s, a).handles[h] == s.handles[h]
  {}

  /** A lease names its version until it is dropped. */
  lemma {:induction false} LeaseStays(run: seq<State>, acts: seq<Action>, i: nat, j: nat, h: nat)
    requires IsRun(run, acts) && i <= j < |run| && h in run[i].handles && run[i].handles[h].version.Some?
    requires forall k :: i <= k < j ==> !Drops(acts[k], h)
    ensures h in run[j].handles && run[j].handles[h] == run[i].handles[h]
    decreases j
  {
    if i < j {
      LeaseStays(run, acts, i, j - 1, h);
      RunInv(run, acts, j - 1);
      StepKeepsLease(run[j - 1], acts[j - 1], h);
    }
  }

  /** The version's bytes are still where they were published. */
  ghost predicate StillShows(run: seq<State>, i: nat, j: nat, v: nat)
    requires i < |run| && j < |run| && v in run[i].versions
  {
    var id, bytes := run[i].versions[v].backing, run[i].versions[v].bytes;
    id in run[j].backings && |bytes| <= |run[j].backings[id].memory| && run[j].backings[id].memory[..|bytes|] == bytes
  }

  /** Until a lease on a version is dropped, the version's bytes stay. */
  lemma LeaseProtects(run: seq<State>, acts: seq<Action>, i: nat, j: nat, h: nat, v: nat)
    requires IsRun(run, acts) && i <= j < |run| && h in run[i].handles && run[i].handles[h].version == Some(v)
    requires forall k :: i <= k < j ==> !Drops(acts[k], h)
    ensures v in run[i].versions && StillShows(run, i, j, v)
  {
    RunInv(run, acts, i);
    LeaseStays(run, acts, i, j, h);
    NamedBytesNeverChange(run, acts, i, j, v);
  }

  // ---- frames ----

  /** The clock stands at its start, or at the largest point it was advanced to. */
  lemma {:induction false} ClockFromCalls(run: seq<State>, acts: seq<Action>, n: nat)
    requires IsRun(run, acts) && n < |run|
    ensures run[0].completed <= run[n].completed
    ensures forall k :: 0 <= k < n && acts[k].Advance? ==> acts[k].completed <= run[n].completed
    ensures run[n].completed == run[0].completed || exists k :: 0 <= k < n && acts[k] == Advance(run[n].completed)
  {
    if n > 0 {
      ClockFromCalls(run, acts, n - 1);
      if run[n].completed != run[n - 1].completed {
        assert acts[n - 1] == Advance(run[n].completed);
      } else if run[n].completed != run[0].completed {
        var k :| 0 <= k < n - 1 && acts[k] == Advance(run[n - 1].completed);
        assert acts[k] == Advance(run[n].completed);
      }
    }
  }

  lemma StepKeepsBound(s: State, a: Action, v: nat)
    requires Inv(s) && Enabled(s, a) && v in s.versions
    ensures v in Apply(s, a).versions && s.versions[v].bound <= Apply(s, a).versions[v].bound
  {}

  /** A frame that binds a version at a point binds it at that point for good. */
  lemma {:induction false} BoundStays(run: seq<State>, acts: seq<Action>, i: nat, j: nat)
    requires IsRun(run, acts) && i < j < |run| && acts[i].Bind?
    ensures var v := run[i].handles[acts[i].h].version.value;
      v in run[i].versions && v in run[j].versions && acts[i].safeAt <= run[j].versions[v].bound
    decreases j
  {
    if i + 1 < j {
      BoundStays(run, acts, i, j - 1);
      RunInv(run, acts, j - 1);
      StepKeepsBound(run[j - 1], acts[j - 1], run[i].handles[acts[i].h].version.value);
    }
  }

  /** A frame's binding protects the version's bytes until the clock is advanced to its point, whoever drops what. */
  lemma BindProtects(run: seq<State>, acts: seq<Action>, i: nat, j: nat)
    requires IsRun(run, acts) && i < j < |run| && acts[i].Bind? && run[0].completed < acts[i].safeAt
    requires forall k :: 0 <= k < j && acts[k].Advance? ==> acts[k].completed < acts[i].safeAt
    ensures var v := run[i].handles[acts[i].h].version.value; v in run[i].versions && StillShows(run, i, j, v)
  {
    ClockFromCalls(run, acts, j);
    BoundStays(run, acts, i, j);
    NamedBytesNeverChange(run, acts, i, j, run[i].handles[acts[i].h].version.value);
  }

  // ---- leased again ----

  /** Step k binds a version in the backing to a frame. */
  predicate BindsOn(run: seq<State>, acts: seq<Action>, k: nat, id: nat)
    requires IsRun(run, acts) && k < |acts|
  {
    acts[k].Bind? && run[k].handles[acts[k].h].backing == id
  }

  /** A backing is held for the latest frame that bound it. */
  ghost predicate HeldFor(run: seq<State>, acts: seq<Action>, n: nat, id: nat, safeAt: nat)
    requires IsRun(run, acts) && n < |run|
  {
    && (forall k :: 0 <= k < n && BindsOn(run, acts, k, id) ==> acts[k].safeAt <= safeAt)
    && (safeAt == 0 || exists k :: 0 <= k < n && BindsOn(run, acts, k, id) && acts[k].safeAt == safeAt)
  }

  lemma {:induction false} SafeAtFromCalls(run: seq<State>, acts: seq<Action>, n: nat, id: nat)
    requires IsRun(run, acts) && n < |run| && id in run[n].backings
    ensures HeldFor(run, acts, n, id, run[n].backings[id].safeAt)
  {
    if n > 0 {
      if id in run[n - 1].backings {
        SafeAtFromCalls(run, acts, n - 1, id);
        SafeAtStep(run, acts, n - 1, id);
        HeldForMore(run, acts, n - 1, id, run[n - 1].backings[id].safeAt);
      } else {
        forall k | 0 <= k < n ensures !BindsOn(run, acts, k, id) { NotYetThere(run, acts, k, n - 1, id); }
        MadeUnbound(run[n - 1], acts[n - 1], id);
      }
    }
  }

  lemma HeldForMore(run: seq<State>, acts: seq<Action>, n: nat, id: nat, safeAt: nat)
    requires IsRun(run, acts) && n < |acts| && HeldFor(run, acts, n, id, safeAt)
    ensures HeldFor(run, acts, n + 1, id, if BindsOn(run, acts, n, id) then Max(safeAt, acts[n].safeAt) else safeAt)
  {}

  lemma MadeUnbound(s: State, a: Action, id: nat)
    requires Enabled(s, a) && id !in s.backings && id in Apply(s, a).backings
    ensures Apply(s, a).backings[id].safeAt == 0
  {}

  lemma SafeAtStep(run: seq<State>, acts: seq<Action>, n: nat, id: nat)
    requires IsRun(run, acts) && n < |acts| && id in run[n].backings
    ensures id in run[n + 1].backings
    ensures run[n + 1].backings[id].safeAt ==
      if BindsOn(run, acts, n, id) then Max(run[n].backings[id].safeAt, acts[n].safeAt) else run[n].backings[id].safeAt
  {}

  /** A backing not there yet had no lease to bind through. */
  lemma {:induction false} NotYetThere(run: seq<State>, acts: seq<Action>, k: nat, n: nat, id: nat)
    requires IsRun(run, acts) && k <= n < |acts| && id !in run[n].backings
    ensures id !in run[k].backings && !BindsOn(run, acts, k, id)
    decreases n
  {
    if k < n { NotYetThere(run, acts, k, n - 1, id); } else { RunInv(run, acts, k); }
  }

  /** The publisher may lease a backing again exactly when every lease on it was dropped and the clock has reached every frame that bound
      it. */
  lemma ReuseExactly(run: seq<State>, acts: seq<Action>, n: nat, id: nat, h: nat)
    requires IsRun(run, acts) && n < |run| && run[n].publisher.Between? && id in run[n].backings && h !in run[n].handles
    ensures Enabled(run[n], Reuse(id, h)) <==>
      && (forall g :: g in run[n].handles && IsTaken(acts, n, g) ==> run[n].handles[g].backing != id)
      && (forall k :: 0 <= k < n && BindsOn(run, acts, k, id) ==> acts[k].safeAt <= run[n].completed)
  {
    RunInv(run, acts, n);
    SafeAtFromCalls(run, acts, n, id);
    forall g | g in run[n].handles ensures IsTaken(acts, n, g) { LeasesFromCalls(run, acts, n, g); }
    var on := HandlesOn(run[n].handles, id);
    if run[n].backings[id].leases == 0 {
      assert forall g :: g in run[n].handles && run[n].handles[g].backing == id ==> g in on;
    } else {
      var g :| g in on;
    }
  }

  // ---- epochs ----

  /** Step a leaves the backing holding nothing a successor may rely on. */
  predicate Forgets(s: State, a: Action, id: nat)
    requires Enabled(s, a)
  {
    match a
    case Allocate(k, _, _) => k == id
    case Reuse(k, _) => k == id
    case Append(head, _) => s.handles[head].backing == id
    case DropOne(h) => s.handles[h].backing == id
    case Discard(h) => s.handles[h].backing == id
    case _ => false
  }

  predicate SealsOn(s: State, a: Action, id: nat)
    requires Enabled(s, a)
  {
    a.Seal? && s.publisher.backing == id
  }

  lemma EpochStep(s: State, a: Action, id: nat)
    requires Inv(s) && Enabled(s, a) && id in Apply(s, a).backings
    ensures Apply(s, a).backings[id].epoch ==
      if Forgets(s, a, id) then 0 else if SealsOn(s, a, id) then a.epoch else s.backings[id].epoch
    ensures !Forgets(s, a, id) ==> id in s.backings
  {}

  /** Step k sealed the backing, and nothing until n sealed it again or forgot it. */
  predicate LastSeal(run: seq<State>, acts: seq<Action>, k: int, n: nat, id: nat)
    requires IsRun(run, acts) && n < |run|
  {
    && 0 <= k < n && SealsOn(run[k], acts[k], id)
    && forall j :: k < j < n ==> !SealsOn(run[j], acts[j], id) && !Forgets(run[j], acts[j], id)
  }

  lemma StillLastSeal(run: seq<State>, acts: seq<Action>, k: nat, n: nat, id: nat)
    requires IsRun(run, acts) && n < |acts| && LastSeal(run, acts, k, n, id)
    requires !SealsOn(run[n], acts[n], id) && !Forgets(run[n], acts[n], id)
    ensures LastSeal(run, acts, k, n + 1, id)
  {}

  /** A backing claims an epoch only from the seal that gave it, with no forgetting since: a new, reused or appended-to backing, one a
      throw or a discard has passed over, claims nothing until it is sealed. */
  lemma {:induction false} EpochFromCalls(run: seq<State>, acts: seq<Action>, n: nat, id: nat) returns (k: nat)
    requires IsRun(run, acts) && n < |run| && id in run[n].backings && run[n].backings[id].epoch != 0
    ensures LastSeal(run, acts, k, n, id) && acts[k].epoch == run[n].backings[id].epoch
  {
    var s, a := run[n - 1], acts[n - 1];
    RunInv(run, acts, n - 1);
    EpochStep(s, a, id);
    if SealsOn(s, a, id) {
      k := n - 1;
    } else {
      k := EpochFromCalls(run, acts, n - 1, id);
      StillLastSeal(run, acts, k, n - 1, id);
    }
  }

  /** And it claims that seal's epoch until then. */
  lemma {:induction false} SealedClaims(run: seq<State>, acts: seq<Action>, k: nat, n: nat, id: nat)
    requires IsRun(run, acts) && n < |run| && LastSeal(run, acts, k, n, id)
    ensures id in run[n].backings && run[n].backings[id].epoch == acts[k].epoch
    decreases n
  {
    RunInv(run, acts, n - 1);
    if k < n - 1 {
      assert LastSeal(run, acts, k, n - 1, id);
      SealedClaims(run, acts, k, n - 1, id);
    }
    StepClaims(run[n - 1], acts[n - 1], id);
  }

  lemma StepClaims(s: State, a: Action, id: nat)
    requires Inv(s) && Enabled(s, a) && (SealsOn(s, a, id) || (id in s.backings && !Forgets(s, a, id)))
    ensures id in Apply(s, a).backings
    ensures Apply(s, a).backings[id].epoch == if SealsOn(s, a, id) then a.epoch else s.backings[id].epoch
  {
    assert id in Apply(s, a).backings;
    EpochStep(s, a, id);
  }
}
