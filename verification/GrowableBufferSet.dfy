/** The growable set itself (src/GrowableBufferSet.cpp): registrations, one growth batch at a time, the sealed set. A batch is posted to
    the host and settles later; what a registration or a version is told is given. */
module GrowableBufferSet {
  import opened Bytes
  import opened GrowthPolicy
  import opened ElasticCapacity
  import opened GrowableBufferTypes
  import opened GrowableBufferSlots

  /** What a sealed set names; it never changes. */
  class NamedVersions {
    const serial: nat
    const entries: seq<Entry>
    const latches: seq<Option<Block>>

    constructor (serial: nat, entries: seq<Entry>, latches: seq<Option<Block>>)
      ensures this.serial == serial && this.entries == entries && this.latches == latches
    {
      this.serial, this.entries, this.latches := serial, entries, latches;
    }
  }

  /** The last sealed set names what the slots hold, unless something changed since. */
  predicate Current(changed: bool, last: NamedVersions?, slots: seq<Slot>, latches: seq<LatchSlot>) {
    !changed && last != null ==> last.entries == NamedEntries(slots) && last.latches == Blocks(latches)
  }

  /** A sealed set is the slots' versions and the latches' blocks, and meets what the build asks of the living. */
  predicate Meets(named: NamedVersions, slots: seq<Slot>, latches: seq<LatchSlot>, build: Build, alive: set<nat>) {
    && named.entries == NamedEntries(slots) && named.latches == Blocks(latches)
    && MetAll(slots, build.required, alive) && AllLatch(latches, build.latches)
  }

  datatype Posted = Accepted | Rejected | PostThrows

  datatype Sealed = Names(versions: NamedVersions) | Pending | Refused | SealThrows

  class GrowableBufferSet {
    var registered: seq<Registered>     // the stack of registrations not taken yet
    var slots: seq<Slot>
    var latchSlots: seq<LatchSlot>
    var batch: Option<Batch>
    var changed: bool
    var last: NamedVersions?
    var serials: nat                    // the serials handed out

    ghost predicate Valid()
      reads this
    {
      && WellFormed(slots, serials) && BatchFits(batch, |slots|) && Current(changed, last, slots, latchSlots)
      && (forall r :: r in registered && r.Buffer? ==> r.registration.extent.unitBytes != 0)
    }

    /** The slots, the latches and the serials once every registration waiting is taken in. */
    function Entering(alive: set<nat>): Taken
      reads this
    {
      TakesAll(Taken(slots, latchSlots, serials), registered, alive)
    }

    constructor ()
      ensures Valid() && slots == [] && batch == None && last == null
    {
      registered, slots, latchSlots, batch, changed, last, serials := [], [], [], None, true, null, 0;
    }

    /** A version's entry, under a serial no other has. */
    method EntryOf(extent: Extent, version: Option<nat>) returns (entry: Entry)
      modifies this`serials
      ensures version.None? ==> entry == NO_ENTRY && serials == old(serials)
      ensures version.Some? ==>
        serials == old(serials) + 1 && entry == Entry(true, serials, UnitsIn(extent, version.value), version.value)
    {
      if version.None? { return NO_ENTRY; }
      serials := serials + 1;
      entry := Entry(true, serials, UnitsIn(extent, version.value), version.value);
    }

    /** Any thread: a buffer joins the set. */
    method Register(r: Registered)
      requires Valid() && (r.Buffer? ==> r.registration.extent.unitBytes != 0)
      modifies this`registered
      ensures Valid() && registered == [r] + old(registered)
    {
      registered := [r] + registered;
    }

    method TakeOne(r: Registered, alive: set<nat>)
      requires WellFormed(slots, serials) && BatchFits(batch, |slots|) && (r.Buffer? ==> r.registration.extent.unitBytes != 0)
      modifies this`slots, this`latchSlots, this`changed, this`serials
      ensures WellFormed(slots, serials) && BatchFits(batch, |slots|) && changed && serials >= old(serials)
      ensures Taken(slots, latchSlots, serials) == TakesOne(Taken(old(slots), old(latchSlots), old(serials)), r, alive)
    {
      if r.Buffer? {
        slots := Resized(slots, r.index + 1, EMPTY);
        var entry := slots[r.index].current;
        if r.buffer in alive { entry := EntryOf(r.registration.extent, r.first); }
        slots := slots[r.index := slots[r.index].(registration := Some(r.registration), buffer := r.buffer, made := false, current := entry)];
      } else {
        latchSlots := Resized(latchSlots, r.index + 1, NO_LATCH);
        latchSlots := latchSlots[r.index := latchSlots[r.index].(policy := Some(r.policy))];
      }
      changed := true;
    }

    /** Takes every registration in. */
    method TakeRegistered(alive: set<nat>)
      requires Valid()
      modifies this`registered, this`slots, this`latchSlots, this`changed, this`serials
      ensures Valid() && registered == [] && serials >= old(serials)
      ensures Taken(slots, latchSlots, serials) == old(Entering(alive))
      ensures changed <==> old(changed) || old(registered) != []
    {
      var list := registered;
      registered := [];
      while list != []
        invariant WellFormed(slots, serials) && BatchFits(batch, |slots|) && registered == [] && serials >= old(serials)
        invariant Current(changed, last, slots, latchSlots) && (forall r :: r in list && r.Buffer? ==> r.registration.extent.unitBytes != 0)
        invariant TakesAll(Taken(slots, latchSlots, serials), list, alive) == old(Entering(alive))
        invariant |list| <= |old(registered)| && (changed <==> old(changed) || |list| < |old(registered)|)
        decreases |list|
      {
        TakeOne(list[0], alive);
        list := list[1..];
      }
    }

    /** The posted growth is done: it made a version for every request, or it failed. */
    method Done(made: Option<seq<nat>>)
      requires Valid() && batch.Some?
      modifies this`batch
      ensures Valid() && batch.Some? && batch.value.slots == old(batch).value.slots && batch.value.units == old(batch).value.units
      ensures batch.value.state ==
        if made.Some? && |made.value| == |batch.value.slots| then ReadyWith(made.value) else BatchFailed
    {
      if made.Some? && |made.value| == |batch.value.slots| {
        batch := Some(batch.value.(state := ReadyWith(made.value)));
      } else {
        batch := Some(batch.value.(state := BatchFailed));
      }
    }

    /** Takes a settled batch in; one still in flight stays. */
    method Settle()
      requires Valid()
      modifies this`slots, this`batch, this`changed, this`serials
      ensures Valid() && serials >= old(serials) && (old(changed) ==> changed)
      ensures old(batch).None? || old(batch).value.state.InFlight? ==>
        slots == old(slots) && batch == old(batch) && changed == old(changed) && serials == old(serials)
      ensures old(batch).Some? && !old(batch).value.state.InFlight? ==>
        batch == None && SettledBatch(old(slots), slots, old(batch).value, old(serials), serials)
    {
      if batch.None? || batch.value.state.InFlight? { return; }
      var settling := batch.value;
      for k := 0 to |settling.slots|
        invariant WellFormed(slots, serials) && |slots| == |old(slots)| && serials >= old(serials) && batch == old(batch)
        invariant SettledTo(old(slots), slots, settling, k, old(serials), serials)
        invariant changed || (changed == old(changed) && NamedEntries(slots) == NamedEntries(old(slots)))
      {
        ghost var before, from := slots, serials;
        SettleOne(settling, k);
        SettledNext(old(slots), before, slots, settling, k, old(serials), from, serials);
      }
      batch := None;
    }

    method SettleOne(settling: Batch, k: nat)
      requires k < |settling.slots| && BatchFits(Some(settling), |slots|) && WellFormed(slots, serials)
      modifies this`slots, this`changed, this`serials
      ensures WellFormed(slots, serials) && serials >= old(serials) && |slots| == |old(slots)|
      ensures var i := settling.slots[k];
        && Settles(old(slots)[i], slots[i], BatchBytes(settling, k), old(serials), serials)
        && slots == old(slots)[i := slots[i]]
      ensures changed || (changed == old(changed) && NamedEntries(slots) == NamedEntries(old(slots)))
    {
      var i := settling.slots[k];
      slots := slots[i := slots[i].(asked := 0)];
      if settling.state.ReadyWith? && slots[i].registration.Some? {
        var entry := EntryOf(slots[i].registration.value.extent, Some(settling.state.bytes[k]));
        slots := slots[i := slots[i].(current := entry, made := true)];
        changed := true;
      } else {
        assert NamedEntries(slots) == NamedEntries(old(slots));
      }
    }

    /** Takes registrations and a settled batch in (`settled` is what they made of the slots); an expired buffer leaves the set. */
    method Begin(alive: set<nat>) returns (ghost settled: seq<Slot>)
      requires Valid()
      modifies this`registered, this`slots, this`latchSlots, this`batch, this`changed, this`serials
      ensures Valid() && registered == [] && serials >= old(serials)
      ensures old(batch).None? || old(batch).value.state.InFlight? ==>
        batch == old(batch) && serials == old(Entering(alive)).serials && settled == old(Entering(alive)).slots
      ensures old(batch).Some? && !old(batch).value.state.InFlight? ==>
        && batch == None && old(Entering(alive)).serials <= serials
        && SettledBatch(old(Entering(alive)).slots, settled, old(batch).value, old(Entering(alive)).serials, serials)
      ensures slots == Unexpired(settled, alive) && latchSlots == old(Entering(alive)).latches
      ensures old(changed) || old(registered) != [] ==> changed
    {
      TakeRegistered(alive);
      Settle();
      settled := slots;
      Expire(alive);
    }

    /** An expired buffer leaves the set. */
    method Expire(alive: set<nat>)
      requires Valid()
      modifies this`slots, this`changed
      ensures Valid() && slots == Unexpired(old(slots), alive) && (old(changed) ==> changed)
    {
      for i := 0 to |slots|
        invariant Valid() && |slots| == |old(slots)| && (old(changed) ==> changed)
        invariant forall j :: 0 <= j < |slots| ==> slots[j] == if j < i then Unexpired(old(slots), alive)[j] else old(slots)[j]
      {
        if slots[i].registration.Some? && slots[i].buffer !in alive {
          slots := slots[i := EMPTY];
          changed := true;
        }
      }
    }

    /** Post's loop: the requests of the asks whose buffers live, up to the first that stops it. */
    method Gather(asks: Asks, alive: set<nat>, hasUploader: bool) returns (posted: seq<nat>, units: seq<nat>, threw: bool, ghost n: nat)
      requires WellFormed(slots, serials) && Askable(asks, slots)
      modifies this`slots
      ensures WellFormed(slots, serials) && n <= |asks|
      ensures IsPairs(posted, units, Living(asks[..n], old(slots), alive)) && AskedAs(old(slots), slots, Living(asks[..n], old(slots), alive))
      ensures forall k :: 0 <= k < n ==> !Stops(asks[k], old(slots), alive, hasUploader)
      ensures if threw then n < |asks| && Stops(asks[n], old(slots), alive, hasUploader) else n == |asks|
    {
      posted, units, threw, n := [], [], false, 0;
      for k := 0 to |asks|
        invariant n == k && WellFormed(slots, serials)
        invariant IsPairs(posted, units, Living(asks[..k], old(slots), alive))
        invariant AskedAs(old(slots), slots, Living(asks[..k], old(slots), alive)) && SlotsKept(old(slots), slots)
        invariant forall j :: 0 <= j < k ==> !Stops(asks[j], old(slots), alive, hasUploader)
      {
        var (index, wanted) := asks[k];
        assert asks[..k + 1][..k] == asks[..k] && SameButAsked(old(slots)[index], slots[index]);
        if slots[index].buffer !in alive {
          n := k + 1;
          continue;
        }
        var registration := slots[index].registration.value;
        if registration.extent.stride != 0 && ElementsFor(registration.extent, wanted) > MAX_U32 { return posted, units, true, k; }
        if registration.contents != Fresh && !hasUploader { return posted, units, true, k; }
        ghost var before := slots;
        slots := slots[index := slots[index].(asked := wanted)];
        posted, units := posted + [index], units + [wanted];
        GatherNext(old(slots), before, asks, k, alive);
        n := k + 1;
      }
      assert asks[..|asks|] == asks;
    }

    /** One batch for the asks whose buffers live; none when none does. The host may reject it; an ask that cannot be posted throws. */
    method Post(asks: Asks, alive: set<nat>, accepted: bool, hasUploader: bool) returns (r: Posted, ghost n: nat)
      requires Valid() && batch.None? && Askable(asks, slots)
      modifies this`slots, this`batch
      ensures Valid() && SlotsKept(old(slots), slots) && SameWindows(old(slots), slots) && n <= |asks|
      ensures r == PostThrows <==> exists k :: 0 <= k < |asks| && Stops(asks[k], old(slots), alive, hasUploader)
      ensures r == PostThrows ==>
        && batch == None && n < |asks| && Stops(asks[n], old(slots), alive, hasUploader)
        && AskedAs(old(slots), slots, Living(asks[..n], old(slots), alive))
      ensures r != PostThrows ==> r == if Living(asks, old(slots), alive) == [] || accepted then Accepted else Rejected
      ensures r == Rejected ==> batch == None && AskedAs(old(slots), slots, Zeros(Living(asks, old(slots), alive)))
      ensures r == Accepted ==> AskedAs(old(slots), slots, Living(asks, old(slots), alive))
      ensures r == Accepted ==> (batch.None? <==> Living(asks, old(slots), alive) == [])
      ensures r == Accepted && batch.Some? ==>
        batch.value.state == InFlight && IsPairs(batch.value.slots, batch.value.units, Living(asks, old(slots), alive))
    {
      ghost var living := Living(asks, slots, alive);
      var posted, units, threw, at := Gather(asks, alive, hasUploader);
      n := at;
      AskedKept(old(slots), slots, Living(asks[..n], old(slots), alive));
      KeptNames(old(slots), slots);
      if threw { return PostThrows, n; }
      assert asks[..n] == asks;
      LivingInSet(asks, old(slots), alive);
      if posted == [] { return Accepted, n; }
      if accepted {
        batch := Some(Batch(posted, units, InFlight));
        return Accepted, n;
      }
      ghost var asked := slots;
      Unask(posted, living);
      AskedTwice(old(slots), asked, slots, living);
      AskedKept(old(slots), slots, Zeros(living));
      KeptNames(old(slots), slots);
      r := Rejected;
    }

    method Unask(posted: seq<nat>, ghost asks: Asks)
      requires WellFormed(slots, serials) && |posted| == |asks| && Distinct(asks)
      requires forall k :: 0 <= k < |asks| ==> posted[k] == asks[k].0 < |slots|
      modifies this`slots
      ensures WellFormed(slots, serials) && AskedAs(old(slots), slots, Zeros(asks))
    {
      for k := 0 to |posted|
        invariant WellFormed(slots, serials) && AskedAs(old(slots), slots, Zeros(asks)[..k])
      {
        ghost var before := slots;
        assert Zeros(asks)[..k + 1] == Zeros(asks)[..k] + [(posted[k], 0)];
        slots := slots[posted[k] := slots[posted[k]].(asked := 0)];
        AskedNext(old(slots), before, Zeros(asks)[..k], (posted[k], 0));
      }
      assert Zeros(asks)[..|asks|] == Zeros(asks);
    }

    // ---- Seal, step by step ----

    /** The slots that need another version; false when a requirement names a buffer not in the set. */
    method FindUnmet(required: seq<Requirement>, alive: set<nat>) returns (unmet: seq<nat>, known: bool)
      ensures known <==> Known(slots, required)
      ensures known ==> Apart(unmet) && forall i: nat :: i in unmet <==> Unmet(slots, required, alive, i)
    {
      unmet, known := [], true;
      for i := 0 to |required|
        invariant forall j :: 0 <= j < i && Demands(required[j]) ==> j < |slots| && slots[j].registration.Some?
        invariant Apart(unmet) && forall j: nat :: j in unmet <==> j < i && Demands(required[j]) && Lacks(slots[j], required[j])
      {
        if required[i].units == 0 && required[i].newerThan == 0 { continue; }
        if i >= |slots| || slots[i].registration.None? { return unmet, false; }
        if !MetBy(required[i], slots[i].current.units, slots[i].current.serial) { unmet := unmet + [i]; }
      }
      ghost var lacking := unmet;
      for i := 0 to |slots|
        invariant Apart(unmet)
        invariant forall j: nat :: j in unmet <==> j in lacking || (j < i && Unmade(slots[j]) && slots[j].buffer in alive)
      {
        var registration := slots[i].registration;
        if registration.None? || slots[i].made || registration.value.contents != Zero || slots[i].buffer !in alive { continue; }
        if i !in unmet { unmet := unmet + [i]; }
      }
    }

    /** What each of them grows to; its window is reset. */
    method AskUnmet(unmet: seq<nat>, required: seq<Requirement>, ghost alive: set<nat>) returns (asks: Asks, threw: bool)
      requires Valid() && Apart(unmet) && forall i: nat :: i in unmet <==> Unmet(slots, required, alive, i)
      modifies this`slots
      ensures Valid() && SlotsKept(old(slots), slots)
      ensures threw <==> exists i: nat :: Unmet(old(slots), required, alive, i) && GrowthOf(old(slots), required, i).PastLimit?
      ensures !threw ==> slots == Rested(old(slots), required, alive) && |asks| == |unmet|
      ensures !threw ==> forall k :: 0 <= k < |asks| ==>
        asks[k].0 == unmet[k] && Unmet(old(slots), required, alive, unmet[k]) && GrowthOf(old(slots), required, unmet[k]) == Made(asks[k].1)
    {
      asks, threw := [], false;
      for k := 0 to |unmet|
        invariant WellFormed(slots, serials) && |slots| == |old(slots)| && |asks| == k
        invariant forall i :: 0 <= i < |slots| ==> slots[i] == if i in unmet[..k] then RestedSlot(old(slots)[i]) else old(slots)[i]
        invariant forall j :: 0 <= j < k ==>
          asks[j].0 == unmet[j] && Unmet(old(slots), required, alive, unmet[j]) && GrowthOf(old(slots), required, unmet[j]) == Made(asks[j].1)
      {
        var i := unmet[k];
        assert i in unmet && i !in unmet[..k] && unmet[..k + 1] == unmet[..k] + [i];
        slots := slots[i := RestedSlot(slots[i])];
        var made := GrowTo(RequiredOf(required, i), slots[i].registration.value.policy, slots[i].current.units);
        if made.PastLimit? {
          KeptNames(old(slots), slots);
          return asks, true;
        }
        asks := asks + [(i, made.value)];
      }
      assert unmet[..|unmet|] == unmet;
      KeptNames(old(slots), slots);
      forall i: nat | Unmet(old(slots), required, alive, i) ensures GrowthOf(old(slots), required, i).Made? {
        var k :| 0 <= k < |unmet| && unmet[k] == i;
        assert GrowthOf(old(slots), required, unmet[k]) == Made(asks[k].1);
      }
    }

    /** With every living requirement met: the buffers asked little of for their window are asked smaller, in a batch that holds no seal. */
    method Shrink(required: seq<Requirement>, now: int, alive: set<nat>, accepted: bool, hasUploader: bool) returns (threw: bool)
      requires Valid() && batch.None?
      modifies this`slots, this`batch
      ensures Valid() && SlotsKept(old(slots), slots)
      ensures threw <==> ShrinkThrows(old(slots), required, now, alive, hasUploader)
      ensures batch.Some? ==> ShrinkBatch(batch.value, old(slots), required, now, alive)
      ensures !threw ==> SameWindows(Watched(old(slots), required, now, |slots|), slots)
      ensures !threw ==> (batch.Some? <==> accepted && AnyShrinks(old(slots), required, now, alive))
    {
      var shrinks, stopped := Watch(required, now);
      if stopped { return true; }
      threw := false;
      ghost var watched := slots;
      ShrinksPosted(old(slots), watched, required, now, shrinks, alive, hasUploader);
      if shrinks != [] {
        var posted, n := Post(shrinks, alive, accepted, hasUploader);
        KeptTwice(old(slots), watched, slots);
        threw := posted == PostThrows;
        if batch.Some? { PairsShrink(batch.value, old(slots), watched, required, now, shrinks, alive); }
      }
    }

    /** Observes each asked slot once: what closes its window is asked smaller. */
    method Watch(required: seq<Requirement>, now: int) returns (shrinks: Asks, threw: bool)
      requires Valid() && batch.None?
      modifies this`slots
      ensures Valid() && SlotsKept(old(slots), slots)
      ensures threw <==> exists i: nat :: Observes(old(slots), required, i) && Observing(old(slots), required, now, i).0.Throws?
      ensures !threw ==> slots == Watched(old(slots), required, now, |slots|) && Shrunk(shrinks, old(slots), required, now, |slots|)
    {
      shrinks, threw := [], false;
      var end := Min(|required|, |slots|);
      for i := 0 to end
        invariant WellFormed(slots, serials) && slots == Watched(old(slots), required, now, i) && Shrunk(shrinks, old(slots), required, now, i)
        invariant forall j: nat :: j < i && Observes(old(slots), required, j) ==> !Observing(old(slots), required, now, j).0.Throws?
      {
        var slot := slots[i];
        if required[i].units == 0 || slot.registration.None? || !slot.current.named || !Shrinks(slot.registration.value.shrink) {
          ShrunkPast(shrinks, old(slots), required, now, i);
          continue;
        }
        var (seen, window) := Observation(slot.registration.value.shrink, slot.registration.value.policy, slot.current.units, slot.window,
          Ask(required[i].units, now));
        assert Observes(old(slots), required, i) && Observing(old(slots), required, now, i) == (seen, window);
        slots := slots[i := slot.(window := window)];
        assert slots == Watched(old(slots), required, now, i + 1);
        if seen.Throws? {
          KeptNames(old(slots), slots);
          return shrinks, true;
        }
        ShrunkPast(shrinks, old(slots), required, now, i);
        if seen.ShrinksTo? { shrinks := shrinks + [(i, seen.target)]; }
      }
      KeptNames(old(slots), slots);
      assert Watched(old(slots), required, now, end) == Watched(old(slots), required, now, |slots|);
    }

    /** Latch blocks of the asked layouts and bytes, made where they lack; stopped by the first ask that names no latch or passes 32 bits. */
    method FitLatches(asks: seq<LatchAsk>) returns (threw: bool, ghost n: nat)
      requires Valid()
      modifies this`latchSlots, this`changed, this`serials
      ensures Valid() && serials >= old(serials) && n <= |asks|
      ensures FittedTo(old(latchSlots), latchSlots, asks, n, old(serials), serials)
      ensures forall i :: 0 <= i < n ==> !LatchStops(old(latchSlots), asks, i)
      ensures if threw then LatchStops(old(latchSlots), asks, n) else n == |asks|
      ensures !threw ==> AllLatch(latchSlots, asks)
      ensures old(changed) ==> changed
      ensures changed || latchSlots == old(latchSlots)
      ensures AllLatch(old(latchSlots), asks) ==> !threw && changed == old(changed) && latchSlots == old(latchSlots)
    {
      threw, n := false, 0;
      for i := 0 to |asks|
        invariant Valid() && serials >= old(serials) && n == i
        invariant FittedTo(old(latchSlots), latchSlots, asks, i, old(serials), serials)
        invariant forall j :: 0 <= j < i ==> !LatchStops(old(latchSlots), asks, j)
        invariant forall j :: 0 <= j < i && asks[j].asked ==> j < |latchSlots| && Latches(latchSlots[j], asks[j])
        invariant old(changed) ==> changed
        invariant changed || latchSlots == old(latchSlots)
        invariant AllLatch(old(latchSlots), asks) ==> changed == old(changed) && latchSlots == old(latchSlots)
      {
        FittedUntil(old(latchSlots), latchSlots, asks, i, old(serials), serials);
        n := i + 1;
        if !asks[i].asked { continue; }
        if i >= |latchSlots| || latchSlots[i].policy.None? { return true, i; }
        var slot := latchSlots[i];
        var sameLayout := slot.block.Some? && slot.layoutKey == asks[i].layoutKey;
        if sameLayout && slot.block.value.stride >= asks[i].bytes { continue; }
        var made := NextCapacity(slot.policy.value, if sameLayout then slot.block.value.stride else 0, asks[i].bytes);
        if made.PastLimit? || made.value > MAX_U32 { return true, i; }
        NextHolds(slot.policy.value, if sameLayout then slot.block.value.stride else 0, asks[i].bytes);
        ghost var before := latchSlots;
        serials := serials + 1;
        latchSlots := latchSlots[i := slot.(block := Some(Block(serials, made.value)), layoutKey := asks[i].layoutKey)];
        changed := true;
        FittedNext(old(latchSlots), before, latchSlots, asks, i, old(serials), serials);
      }
    }

    /** The growth of what is unmet: a batch of exactly the living among it, or none when none lives. */
    method Grow(unmet: seq<nat>, required: seq<Requirement>, alive: set<nat>, accepted: bool, hasUploader: bool) returns (r: Posted)
      requires Valid() && batch.None? && Apart(unmet)
      requires forall i: nat :: i in unmet <==> Unmet(slots, required, alive, i)
      modifies this`slots, this`batch
      ensures Valid() && SlotsKept(old(slots), slots)
      ensures r == PostThrows <==> GrowThrows(old(slots), required, alive, hasUploader)
      ensures r != PostThrows ==> r == if LivingUnmet(old(slots), required, alive) && !accepted then Rejected else Accepted
      ensures r != Accepted ==> batch == None
      ensures r == Accepted ==> (batch.Some? <==> LivingUnmet(old(slots), required, alive))
      ensures r == Accepted && batch.None? ==> slots == Rested(old(slots), required, alive)
      ensures r != PostThrows ==> SameWindows(Rested(old(slots), required, alive), slots)
      ensures batch.Some? ==> GrowthBatch(batch.value, old(slots), required, alive)
    {
      var asks, threw := AskUnmet(unmet, required, alive);
      if threw { return PostThrows; }
      ghost var rested := slots;
      UnmetAsks(old(slots), rested, required, alive, unmet, asks);
      ghost var n: nat;
      r, n := Post(asks, alive, accepted, hasUploader);
      KeptTwice(old(slots), rested, slots);
      GrowthsPosted(old(slots), rested, required, alive, asks, hasUploader);
      if batch.Some? { PairsGrow(batch.value, old(slots), rested, required, alive, asks); }
      if Living(asks, rested, alive) == [] { assert slots == rested; }
    }

    /** Names the newest ready versions once every living requirement is met; until then, what they lack is in one batch at a time. While
        nothing changed, the very same set is named again. `VerdictOf` says which it is. */
    method Seal(build: Build, alive: set<nat>, now: int, growAccepted: bool, shrinkAccepted: bool, hasUploader: bool) returns (r: Sealed)
      requires Valid()
      modifies this
      ensures Valid() && registered == [] && SlotsKept(old(Entering(alive)).slots, slots) && serials >= old(Entering(alive)).serials
      ensures VerdictIs(r, VerdictOf(old(Entering(alive)), old(batch).Some?, build, alive, now, growAccepted, hasUploader))
      ensures r.Names? ==> r.versions == last && !changed && Meets(r.versions, slots, latchSlots, build, alive)
      ensures r.Names? ==>
        if old(last) != null && !old(changed) && old(registered) == [] && AllLatch(old(latchSlots), build.latches) then r.versions == old(last)
        else fresh(r.versions) && r.versions.serial == serials > old(serials)
      ensures old(batch).Some? ==> batch == old(batch)
      ensures r.Pending? && old(batch).None? ==>
        batch.Some? && GrowthBatch(batch.value, old(Entering(alive)).slots, build.required, alive)
      ensures r.Names? && old(batch).None? && batch.Some? ==>
        ShrinkBatch(batch.value, Rested(old(Entering(alive)).slots, build.required, alive), build.required, now, alive)
      ensures r.Names? && old(batch).None? ==>
        (batch.Some? <==> shrinkAccepted && AnyShrinks(Rested(old(Entering(alive)).slots, build.required, alive), build.required, now, alive))
      ensures r.Names? ==> SameWindows(WindowsAfter(old(Entering(alive)).slots, old(batch).Some?, build.required, alive, now), slots)
      ensures r.Refused? ==> batch == None
      ensures r.Refused? || r.Pending? ==> SameWindows(
        if old(batch).Some? then old(Entering(alive)).slots else Rested(old(Entering(alive)).slots, build.required, alive), slots)
      ensures r.Refused? || r.Pending? ==>
        && last == old(last) && latchSlots == old(Entering(alive)).latches && serials == old(Entering(alive)).serials
        && (changed <==> old(changed) || old(registered) != [])
    {
      TakeRegistered(alive);
      var unmet, known := FindUnmet(build.required, alive);
      if !known { return SealThrows; }
      if unmet != [] {
        assert unmet[0] in unmet;
        if batch.Some? { return Pending; }
        var posted := Grow(unmet, build.required, alive, growAccepted, hasUploader);
        if posted == PostThrows { return SealThrows; }
        if posted == Rejected { return Refused; }
        if batch.Some? { return Pending; }
      }
      ghost var met := slots;
      RestedKept(old(Entering(alive)).slots, build.required, alive);
      r := SealMet(build, alive, now, shrinkAccepted, hasUploader);
      KeptTwice(old(Entering(alive)).slots, met, slots);
    }

    /** Every living buffer's requirement met: shrinks are asked, latches fitted, and the versions named. */
    method SealMet(build: Build, alive: set<nat>, now: int, shrinkAccepted: bool, hasUploader: bool) returns (r: Sealed)
      requires Valid() && Known(slots, build.required)
      requires forall i :: 0 <= i < |slots| && Unmet(slots, build.required, alive, i) ==> slots[i].buffer !in alive
      modifies this`slots, this`latchSlots, this`batch, this`changed, this`last, this`serials
      ensures Valid() && (r.Names? || r.SealThrows?) && SlotsKept(old(slots), slots) && serials >= old(serials)
      ensures r.SealThrows? <==>
        (old(batch).None? && ShrinkThrows(old(slots), build.required, now, alive, hasUploader)) || LatchesStop(old(latchSlots), build.latches)
      ensures r.Names? ==> r.versions == last && !changed && Meets(r.versions, slots, latchSlots, build, alive)
      ensures r.Names? ==>
        if old(last) != null && !old(changed) && AllLatch(old(latchSlots), build.latches) then r.versions == old(last)
        else fresh(r.versions) && r.versions.serial == serials > old(serials)
      ensures old(batch).Some? ==> batch == old(batch)
      ensures old(batch).None? && batch.Some? ==> ShrinkBatch(batch.value, old(slots), build.required, now, alive)
      ensures r.Names? && old(batch).None? ==> (batch.Some? <==> shrinkAccepted && AnyShrinks(old(slots), build.required, now, alive))
      ensures r.Names? ==>
        SameWindows(if old(batch).Some? then old(slots) else Watched(old(slots), build.required, now, |slots|), slots)
    {
      var threw := false;
      if batch.None? { threw := Shrink(build.required, now, alive, shrinkAccepted, hasUploader); }
      if threw { return SealThrows; }
      ghost var n: nat;
      threw, n := FitLatches(build.latches);
      if threw { return SealThrows; }
      MetByAll(old(slots), slots, build.required, alive);
      r := Name();
    }

    /** The last sealed set while nothing changed, else a new one. */
    method Name() returns (r: Sealed)
      requires Valid()
      modifies this`last, this`changed, this`serials
      ensures Valid() && r.Names? && r.versions == last && !changed && serials >= old(serials)
      ensures r.versions.entries == NamedEntries(slots) && r.versions.latches == Blocks(latchSlots)
      ensures if !old(changed) && old(last) != null then last == old(last) && serials == old(serials)
              else fresh(last) && last.serial == serials == old(serials) + 1
    {
      if !changed && last != null { return Names(last); }
      serials := serials + 1;
      last := new NamedVersions(serials, NamedEntries(slots), Blocks(latchSlots));
      changed := false;
      r := Names(last);
    }

    /** Whether to seal again though no requirement moved: something changed, a batch settled, or a slot's window is due. */
    method ShrinkPending(now: int) returns (pending: bool)
      ensures pending <==>
        changed || (batch.Some? && !batch.value.state.InFlight?)
        || (batch.None? && exists i :: 0 <= i < |slots| && slots[i].registration.Some? && IsDue(slots[i].registration.value.shrink, slots[i].window, now))
    {
      if changed { return true; }
      if batch.Some? { return !batch.value.state.InFlight?; }
      for i := 0 to |slots|
        invariant forall j :: 0 <= j < i && slots[j].registration.Some? ==> !IsDue(slots[j].registration.value.shrink, slots[j].window, now)
      {
        if slots[i].registration.Some? && IsDue(slots[i].registration.value.shrink, slots[i].window, now) { return true; }
      }
      pending := false;
    }
  }

  predicate VerdictIs(r: Sealed, verdict: Verdict) {
    match verdict
    case ToName => r.Names?
    case ToPend => r.Pending?
    case ToRefuse => r.Refused?
    case ToThrow => r.SealThrows?
  }

  /** A pending seal's batch, made as it asked, lets the same requirements seal: they wait for no other batch and are not refused, though
      some buffers may have expired meanwhile, and time passed. */
  method SealsOnceSettled(growable: GrowableBufferSet, build: Build, alive: set<nat>, living: set<nat>, now: int, later: int,
      growAccepted: bool, shrinkAccepted: bool, hasUploader: bool) returns (first: Sealed, second: Sealed)
    requires growable.Valid() && growable.registered == [] && growable.batch.None? && living <= alive
    requires forall r :: r in build.required ==> r.newerThan <= growable.serials
    modifies growable
    ensures growable.Valid() && VerdictIs(first, VerdictOf(old(growable.Entering(alive)), false, build, alive, now, growAccepted, hasUploader))
    ensures first.Pending? ==> second.Names? || second.SealThrows?
    ensures first.Pending? && second.Names? ==> Meets(second.versions, growable.slots, growable.latchSlots, build, living)
  {
    first := growable.Seal(build, alive, now, growAccepted, shrinkAccepted, hasUploader);
    second := first;
    if first.Pending? {
      ghost var asked, from, batch := growable.slots, growable.serials, growable.batch.value;
      BatchOfSet(batch, old(growable.slots), asked, build.required, alive);
      var made := MakeAsAsked(growable.batch.value, growable.slots);
      growable.Done(Some(made));
      ghost var settling := growable.batch.value;
      ghost var settled := growable.Begin(living);
      NothingUnmet(asked, settled, settling, build.required, alive, living, from, growable.serials);
      MetNeverWaits(Taken(growable.slots, growable.latchSlots, growable.serials), false, build, living, later, growAccepted, hasUploader);
      second := growable.Seal(build, living, later, growAccepted, shrinkAccepted, hasUploader);
    }
  }

  /** The host makes a version of just the bytes each request asks. */
  method MakeAsAsked(batch: Batch, slots: seq<Slot>) returns (made: seq<nat>)
    requires |batch.units| == |batch.slots|
    requires forall k :: 0 <= k < |batch.slots| ==> batch.slots[k] < |slots| && slots[batch.slots[k]].registration.Some?
    ensures |made| == |batch.slots| && MadeAsAsked(batch.(state := ReadyWith(made)), slots)
  {
    made := seq(|batch.slots|, k requires 0 <= k < |batch.slots| =>
      MadeBytes(slots[batch.slots[k]].registration.value.extent, batch.units[k]));
  }

  /** A growth batch is of registered slots, and covers what was asked however the slots note it. */
  lemma BatchOfSet(batch: Batch, former: seq<Slot>, slots: seq<Slot>, required: seq<Requirement>, alive: set<nat>)
    requires GrowthBatch(batch, former, required, alive) && SlotsKept(former, slots)
    ensures Covers(batch, slots, required, alive)
    ensures forall k :: 0 <= k < |batch.slots| ==> batch.slots[k] < |slots| && slots[batch.slots[k]].registration.Some?
  {
    GrowthCovers(batch, former, required, alive);
    CoversKept(batch, former, slots, required, alive);
    forall k | 0 <= k < |batch.slots| ensures batch.slots[k] < |slots| && slots[batch.slots[k]].registration.Some? {
      assert batch.slots[k] in batch.slots;
      assert SameButAsked(former[batch.slots[k]], slots[batch.slots[k]]);
    }
  }

  lemma NothingUnmet(former: seq<Slot>, settled: seq<Slot>, batch: Batch, required: seq<Requirement>, alive: set<nat>, living: set<nat>,
      from: nat, to: nat)
    requires WellFormed(former, from) && Apart(batch.slots) && Covers(batch, former, required, alive) && living <= alive
    requires MadeAsAsked(batch, former) && SettledBatch(former, settled, batch, from, to)
    requires forall r :: r in required ==> r.newerThan <= from
    ensures !AnyUnmet(Unexpired(settled, living), required, living)
  {
    forall i: nat ensures !Unmet(Unexpired(settled, living), required, living, i) {
      if i < |settled| && settled[i].registration.Some? && settled[i].buffer in living {
        SettledBatchMeetsItsAsks(former, settled, batch, required, alive, living, from, to, i);
      }
    }
  }
}
