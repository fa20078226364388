/** What a growable set keeps of its buffers and latches, and what each step of a build makes of them (src/GrowableBufferSet.cpp).
    Buffers are their sizes; `alive` is which buffers the host still holds. */
module GrowableBufferSlots {
  import opened Bytes
  import opened GrowthPolicy
  import G = GrowthPolicy
  import opened ElasticCapacity
  import opened GrowableBufferTypes

  datatype Contents = Fresh | Zero | Capture
  datatype Registration = Registration(extent: Extent, policy: GrowthPolicy, shrink: ShrinkPolicy, contents: Contents)

  /** The newest ready version of a buffer; `named` is false for none. */
  datatype Entry = Entry(named: bool, serial: nat, units: nat, bytes: nat)

  datatype Slot = Slot(registration: Option<Registration>, buffer: nat, current: Entry, asked: nat, made: bool, window: Window)

  datatype BatchState = InFlight | ReadyWith(bytes: seq<nat>) | BatchFailed
  datatype Batch = Batch(slots: seq<nat>, units: seq<nat>, state: BatchState)

  datatype Block = Block(id: nat, stride: nat)
  datatype LatchSlot = LatchSlot(policy: Option<GrowthPolicy>, block: Option<Block>, layoutKey: nat)

  datatype Registered =
    | Buffer(index: nat, registration: Registration, buffer: nat, first: Option<nat>)   // `first`: its own version's bytes
    | Latch(index: nat, policy: GrowthPolicy)

  datatype LatchAsk = LatchAsk(asked: bool, bytes: nat, layoutKey: nat)
  datatype Build = Build(required: seq<Requirement>, latches: seq<LatchAsk>)

  const NO_ENTRY: Entry := Entry(false, 0, 0, 0)
  const EMPTY: Slot := Slot(None, 0, NO_ENTRY, 0, false, Window(0, 0, 0))
  const NO_LATCH: LatchSlot := LatchSlot(None, None, 0)

  /** A Zero registration's first version is its owner's, and is never named. */
  predicate Unmade(slot: Slot) {
    slot.registration.Some? && !slot.made && slot.registration.value.contents == Zero
  }

  function NamedEntry(slot: Slot): Entry {
    if slot.registration.None? || !slot.current.named || Unmade(slot) then NO_ENTRY else slot.current
  }

  function NamedEntries(slots: seq<Slot>): (r: seq<Entry>)
    ensures |r| == |slots| && forall i :: 0 <= i < |r| ==> r[i] == NamedEntry(slots[i])
  {
    seq(|slots|, i requires 0 <= i < |slots| => NamedEntry(slots[i]))
  }

  function Blocks(latches: seq<LatchSlot>): (r: seq<Option<Block>>)
    ensures |r| == |latches| && forall i :: 0 <= i < |r| ==> r[i] == latches[i].block
  {
    seq(|latches|, i requires 0 <= i < |latches| => latches[i].block)
  }

  function Resized<T>(s: seq<T>, n: nat, filler: T): (r: seq<T>)
    ensures |r| == if |s| < n then n else |s|
    ensures forall i :: 0 <= i < |r| ==> r[i] == if i < |s| then s[i] else filler
  {
    if |s| < n then s + seq(n - |s|, _ => filler) else s
  }

  // ---- requirements ----

  predicate Demands(r: Requirement) {
    r.units != 0 || r.newerThan != 0
  }

  predicate Lacks(slot: Slot, r: Requirement) {
    Demands(r) && !MetBy(r, slot.current.units, slot.current.serial)
  }

  function RequiredOf(required: seq<Requirement>, i: nat): Requirement {
    if i < |required| then required[i] else Requirement(0, 0)
  }

  /** The seal needs another version of slot i: it lacks what is asked, or its first version must be replaced by zeros. */
  predicate Unmet(slots: seq<Slot>, required: seq<Requirement>, alive: set<nat>, i: nat) {
    && i < |slots| && slots[i].registration.Some?
    && (Lacks(slots[i], RequiredOf(required, i)) || (Unmade(slots[i]) && slots[i].buffer in alive))
  }

  /** Every requirement is of a buffer in the set. */
  predicate Known(slots: seq<Slot>, required: seq<Requirement>) {
    forall i :: 0 <= i < |required| && Demands(required[i]) ==> i < |slots| && slots[i].registration.Some?
  }

  predicate Apart(s: seq<nat>) {
    forall i, j :: 0 <= i < j < |s| ==> s[i] != s[j]
  }

  /** What a batch asks for: the slots in it, at the units their growth makes. */
  predicate Covers(batch: Batch, slots: seq<Slot>, required: seq<Requirement>, alive: set<nat>) {
    && |batch.units| == |batch.slots|
    && (forall k :: 0 <= k < |batch.slots| ==> RequiredOf(required, batch.slots[k]).units <= batch.units[k])
    && (forall i :: 0 <= i < |slots| && Unmet(slots, required, alive, i) && slots[i].buffer in alive ==> i in batch.slots)
  }

  predicate SameButAsked(a: Slot, b: Slot) {
    a == b.(asked := a.asked, window := a.window)
  }

  predicate SlotsKept(a: seq<Slot>, b: seq<Slot>) {
    |a| == |b| && forall i :: 0 <= i < |a| ==> SameButAsked(a[i], b[i])
  }

  /** The same windows, slot by slot. */
  predicate SameWindows(a: seq<Slot>, b: seq<Slot>) {
    |a| == |b| && forall i :: 0 <= i < |a| ==> a[i].window == b[i].window
  }

  predicate WellFormed(slots: seq<Slot>, serials: nat) {
    forall i :: 0 <= i < |slots| ==>
      && slots[i].current.serial <= serials && (slots[i].current.named || slots[i].current == NO_ENTRY)
      && (slots[i].registration.Some? ==> slots[i].registration.value.extent.unitBytes != 0)
  }

  predicate BatchFits(batch: Option<Batch>, count: nat) {
    batch.Some? ==>
      && |batch.value.units| == |batch.value.slots| && Apart(batch.value.slots)
      && (forall k :: 0 <= k < |batch.value.slots| ==> batch.value.slots[k] < count)
      && (batch.value.state.ReadyWith? ==> |batch.value.state.bytes| == |batch.value.slots|)
  }

  /** What a settled batch makes of a slot. */
  predicate Settles(former: Slot, slot: Slot, bytes: Option<nat>, from: nat, to: nat) {
    if bytes.Some? && former.registration.Some? then
      && slot == former.(asked := 0, current := slot.current, made := true)
      && slot.current.named && slot.current.bytes == bytes.value && from < slot.current.serial <= to
      && slot.current.units == UnitsIn(former.registration.value.extent, bytes.value)
    else
      slot == former.(asked := 0)
  }

  function BatchBytes(batch: Batch, k: nat): Option<nat> {
    if batch.state.ReadyWith? && k < |batch.state.bytes| then Some(batch.state.bytes[k]) else None
  }

  /** Every slot of the batch settled, the others as they were. */
  predicate SettledBatch(former: seq<Slot>, slots: seq<Slot>, batch: Batch, from: nat, to: nat) {
    && |slots| == |former|
    && (forall k :: 0 <= k < |batch.slots| && batch.slots[k] < |slots| ==>
          Settles(former[batch.slots[k]], slots[batch.slots[k]], BatchBytes(batch, k), from, to))
    && (forall i :: 0 <= i < |slots| && i !in batch.slots ==> slots[i] == former[i])
  }

  /** The batch was made as asked. */
  predicate MadeAsAsked(batch: Batch, slots: seq<Slot>) {
    && batch.state.ReadyWith? && |batch.state.bytes| == |batch.slots| == |batch.units|
    && forall k :: 0 <= k < |batch.slots| && batch.slots[k] < |slots| && slots[batch.slots[k]].registration.Some? ==>
         batch.state.bytes[k] == MadeBytes(slots[batch.slots[k]].registration.value.extent, batch.units[k])
  }

  /** A batch that settled ready meets all it was asked of the buffers that live on. A requirement newer than a serial is met as long as
      that serial was handed out before the batch settled. */
  lemma SettledBatchMeetsItsAsks(former: seq<Slot>, slots: seq<Slot>, batch: Batch, required: seq<Requirement>, alive: set<nat>,
      living: set<nat>, from: nat, to: nat, i: nat)
    requires WellFormed(former, from) && Apart(batch.slots) && Covers(batch, former, required, alive) && living <= alive
    requires MadeAsAsked(batch, former) && SettledBatch(former, slots, batch, from, to)
    requires forall r :: r in required ==> r.newerThan <= from
    requires i < |slots| && slots[i].buffer in living
    ensures !Unmet(slots, required, living, i)
  {
    if i in batch.slots {
      var k :| 0 <= k < |batch.slots| && batch.slots[k] == i;
      assert Settles(former[batch.slots[k]], slots[batch.slots[k]], BatchBytes(batch, k), from, to);
      if former[i].registration.Some? {
        MadeHolds(former[i].registration.value.extent, batch.units[k]);
        assert RequiredOf(required, batch.slots[k]).units <= batch.units[k];
        assert i < |required| ==> required[i] in required;
      }
    } else {
      assert slots[i] == former[i];
    }
  }

  // ---- registrations ----

  datatype Taken = Taken(slots: seq<Slot>, latches: seq<LatchSlot>, serials: nat)

  /** One registration taken in: its slot starts anew, under its owner's first version while the buffer lives. */
  function TakesOne(t: Taken, r: Registered, alive: set<nat>): Taken {
    match r
    case Buffer(index, registration, buffer, first) =>
      var slots := Resized(t.slots, index + 1, EMPTY);
      var serials := if buffer in alive && first.Some? then t.serials + 1 else t.serials;
      var current :=
        if buffer !in alive then slots[index].current
        else if first.None? then NO_ENTRY
        else Entry(true, serials, UnitsIn(registration.extent, first.value), first.value);
      t.(slots := slots[index := slots[index].(registration := Some(registration), buffer := buffer, made := false, current := current)],
         serials := serials)
    case Latch(index, policy) =>
      var latches := Resized(t.latches, index + 1, NO_LATCH);
      t.(latches := latches[index := latches[index].(policy := Some(policy))])
  }

  /** A list of them, the newest first. */
  function TakesAll(t: Taken, list: seq<Registered>, alive: set<nat>): Taken
    decreases |list|
  {
    if list == [] then t else TakesAll(TakesOne(t, list[0], alive), list[1..], alive)
  }

  /** Expired buffers gone. */
  function Unexpired(slots: seq<Slot>, alive: set<nat>): (r: seq<Slot>)
    ensures |r| == |slots|
    ensures forall i :: 0 <= i < |r| ==> r[i] == if slots[i].registration.Some? && slots[i].buffer !in alive then EMPTY else slots[i]
  {
    seq(|slots|, i requires 0 <= i < |slots| => if slots[i].registration.Some? && slots[i].buffer !in alive then EMPTY else slots[i])
  }

  // ---- a batch's requests ----

  type Asks = seq<(nat, nat)>

  predicate Askable(asks: Asks, slots: seq<Slot>) {
    && (forall i, j :: 0 <= i < j < |asks| ==> asks[i].0 != asks[j].0)
    && (forall j :: 0 <= j < |asks| ==> asks[j].0 < |slots| && slots[asks[j].0].registration.Some?)
  }

  /** A version of so many units cannot be posted: more elements than a structured buffer has, or contents and no uploader to fill them. */
  predicate Unpostable(slot: Slot, units: nat, hasUploader: bool)
    requires slot.registration.Some?
  {
    var r := slot.registration.value;
    (r.extent.stride != 0 && ElementsFor(r.extent, units) > MAX_U32) || (r.contents != Fresh && !hasUploader)
  }

  predicate Stops(ask: (nat, nat), slots: seq<Slot>, alive: set<nat>, hasUploader: bool) {
    && ask.0 < |slots| && slots[ask.0].registration.Some? && slots[ask.0].buffer in alive
    && Unpostable(slots[ask.0], ask.1, hasUploader)
  }

  /** The asks whose buffers live, in order. */
  function Living(asks: Asks, slots: seq<Slot>, alive: set<nat>): Asks {
    if asks == [] then []
    else
      var last := asks[|asks| - 1];
      Living(asks[..|asks| - 1], slots, alive) + if last.0 < |slots| && slots[last.0].buffer in alive then [last] else []
  }

  lemma {:induction false} LivingIn(asks: Asks, slots: seq<Slot>, alive: set<nat>, ask: (nat, nat))
    ensures ask in Living(asks, slots, alive) <==> ask in asks && ask.0 < |slots| && slots[ask.0].buffer in alive
  {
    if asks != [] {
      var rest := asks[..|asks| - 1];
      assert asks == rest + [asks[|asks| - 1]];
      LivingIn(rest, slots, alive, ask);
    }
  }

  predicate Distinct(asks: Asks) {
    forall i, j :: 0 <= i < j < |asks| ==> asks[i].0 != asks[j].0
  }

  lemma {:induction false} LivingDistinct(asks: Asks, slots: seq<Slot>, alive: set<nat>)
    requires Distinct(asks)
    ensures Distinct(Living(asks, slots, alive))
  {
    if asks != [] {
      var rest, living := asks[..|asks| - 1], Living(asks[..|asks| - 1], slots, alive);
      LivingDistinct(rest, slots, alive);
      forall j | 0 <= j < |living| ensures living[j].0 != asks[|asks| - 1].0 {
        LivingIn(rest, slots, alive, living[j]);
      }
    }
  }

  /** The slots named by the asks note what is asked of them; the others are as they were. */
  predicate AskedAs(former: seq<Slot>, slots: seq<Slot>, asks: Asks) {
    && |slots| == |former|
    && (forall k :: 0 <= k < |asks| && asks[k].0 < |slots| ==> slots[asks[k].0] == former[asks[k].0].(asked := asks[k].1))
    && (forall i :: 0 <= i < |slots| && Unnamed(asks, i) ==> slots[i] == former[i])
  }

  predicate Unnamed(asks: Asks, i: nat) {
    forall k :: 0 <= k < |asks| ==> asks[k].0 != i
  }

  lemma AskedNext(former: seq<Slot>, before: seq<Slot>, asks: Asks, ask: (nat, nat))
    requires AskedAs(former, before, asks) && Distinct(asks + [ask]) && ask.0 < |before|
    ensures AskedAs(former, before[ask.0 := before[ask.0].(asked := ask.1)], asks + [ask])
  {
    var more, slots := asks + [ask], before[ask.0 := before[ask.0].(asked := ask.1)];
    assert more[|asks|] == ask && forall k :: 0 <= k < |asks| ==> more[k] == asks[k];
    assert Unnamed(asks, ask.0) by {
      forall k | 0 <= k < |asks| ensures asks[k].0 != ask.0 { assert more[k].0 != more[|asks|].0; }
    }
    forall i | 0 <= i < |slots| && Unnamed(more, i) ensures slots[i] == former[i] {
      assert more[|asks|].0 != i;
      forall k | 0 <= k < |asks| ensures asks[k].0 != i { assert more[k].0 != i; }
      assert Unnamed(asks, i);
    }
  }

  /** The same asks, of nothing. */
  function Zeros(asks: Asks): (r: Asks)
    ensures |r| == |asks| && forall k :: 0 <= k < |r| ==> r[k] == (asks[k].0, 0)
  {
    seq(|asks|, k requires 0 <= k < |asks| => (asks[k].0, 0))
  }

  lemma AskedTwice(former: seq<Slot>, asked: seq<Slot>, slots: seq<Slot>, asks: Asks)
    requires AskedAs(former, asked, asks) && AskedAs(asked, slots, Zeros(asks))
    ensures AskedAs(former, slots, Zeros(asks))
  {
    forall i | 0 <= i < |slots| && Unnamed(Zeros(asks), i) ensures slots[i] == former[i] {
      forall k | 0 <= k < |asks| ensures asks[k].0 != i { assert Zeros(asks)[k].0 != i; }
      assert Unnamed(asks, i);
    }
  }

  lemma GatherNext(former: seq<Slot>, before: seq<Slot>, asks: Asks, k: nat, alive: set<nat>)
    requires Askable(asks, former) && k < |asks| && former[asks[k].0].buffer in alive
    requires AskedAs(former, before, Living(asks[..k], former, alive))
    ensures Living(asks[..k + 1], former, alive) == Living(asks[..k], former, alive) + [asks[k]]
    ensures AskedAs(former, before[asks[k].0 := before[asks[k].0].(asked := asks[k].1)], Living(asks[..k + 1], former, alive))
    ensures SlotsKept(former, before[asks[k].0 := before[asks[k].0].(asked := asks[k].1)])
  {
    assert asks[..k + 1][..k] == asks[..k];
    LivingDistinct(asks[..k + 1], former, alive);
    AskedNext(former, before, Living(asks[..k], former, alive), asks[k]);
    AskedKept(former, before[asks[k].0 := before[asks[k].0].(asked := asks[k].1)], Living(asks[..k + 1], former, alive));
  }

  lemma LivingInSet(asks: Asks, slots: seq<Slot>, alive: set<nat>)
    requires Askable(asks, slots)
    ensures var living := Living(asks, slots, alive);
      Distinct(living) && forall k :: 0 <= k < |living| ==> living[k].0 < |slots| && living[k] in asks
  {
    var living := Living(asks, slots, alive);
    LivingDistinct(asks, slots, alive);
    forall k | 0 <= k < |living| ensures living[k] in asks { LivingIn(asks, slots, alive, living[k]); }
  }

  function Firsts(asks: Asks): set<nat> {
    set k | 0 <= k < |asks| :: asks[k].0
  }

  /** A batch of the living asks is in the slots of exactly those. */
  lemma PairsLive(batch: Batch, asks: Asks, slots: seq<Slot>, alive: set<nat>)
    requires Askable(asks, slots) && IsPairs(batch.slots, batch.units, Living(asks, slots, alive))
    ensures forall i: nat :: i in batch.slots <==> i in Firsts(asks) && slots[i].buffer in alive
    ensures forall k :: 0 <= k < |batch.slots| ==> (batch.slots[k], batch.units[k]) in asks
  {
    var living := Living(asks, slots, alive);
    forall k | 0 <= k < |living| ensures living[k] in asks && slots[living[k].0].buffer in alive && living[k].0 in Firsts(asks) {
      LivingIn(asks, slots, alive, living[k]);
    }
    forall i: nat | i in Firsts(asks) && slots[i].buffer in alive ensures i in batch.slots {
      var k :| 0 <= k < |asks| && asks[k].0 == i;
      LivingIn(asks, slots, alive, asks[k]);
      var j :| 0 <= j < |living| && living[j] == asks[k];
      assert batch.slots[j] == i;
    }
  }

  lemma NoneLive(asks: Asks, slots: seq<Slot>, alive: set<nat>)
    requires Askable(asks, slots)
    ensures Living(asks, slots, alive) == [] <==> forall i: nat :: i in Firsts(asks) ==> slots[i].buffer !in alive
  {
    var living := Living(asks, slots, alive);
    if living != [] {
      LivingIn(asks, slots, alive, living[0]);
      assert living[0].0 in Firsts(asks);
    }
    forall i: nat | living == [] && i in Firsts(asks) ensures slots[i].buffer !in alive {
      var k :| 0 <= k < |asks| && asks[k].0 == i;
      LivingIn(asks, slots, alive, asks[k]);
    }
  }

  predicate IsPairs(slots: seq<nat>, units: seq<nat>, asks: Asks) {
    |slots| == |units| == |asks| && forall k :: 0 <= k < |asks| ==> asks[k] == (slots[k], units[k])
  }

  lemma AskedKept(former: seq<Slot>, slots: seq<Slot>, asks: Asks)
    requires AskedAs(former, slots, asks)
    ensures SlotsKept(former, slots) && SameWindows(former, slots)
  {
    forall i | 0 <= i < |slots| ensures SameButAsked(former[i], slots[i]) && former[i].window == slots[i].window {
      if !Unnamed(asks, i) { var k :| 0 <= k < |asks| && asks[k].0 == i; }
    }
  }

  // ---- a build's growth and shrinks ----

  ghost predicate AnyUnmet(slots: seq<Slot>, required: seq<Requirement>, alive: set<nat>) {
    exists i: nat :: Unmet(slots, required, alive, i)
  }

  ghost predicate LivingUnmet(slots: seq<Slot>, required: seq<Requirement>, alive: set<nat>) {
    exists i: nat :: Unmet(slots, required, alive, i) && slots[i].buffer in alive
  }

  /** What an unmet slot grows to. */
  function GrowthOf(slots: seq<Slot>, required: seq<Requirement>, i: nat): G.Capacity
    requires i < |slots| && slots[i].registration.Some?
  {
    GrowTo(RequiredOf(required, i), slots[i].registration.value.policy, slots[i].current.units)
  }

  /** Some unmet slot's growth is past 64 bits, or cannot be posted. */
  ghost predicate GrowThrows(slots: seq<Slot>, required: seq<Requirement>, alive: set<nat>, hasUploader: bool) {
    exists i: nat :: Unmet(slots, required, alive, i) &&
      (GrowthOf(slots, required, i).PastLimit?
       || (slots[i].buffer in alive && Unpostable(slots[i], GrowthOf(slots, required, i).value, hasUploader)))
  }

  function RestedSlot(slot: Slot): Slot {
    slot.(window := ElasticCapacity.Reset(slot.window))
  }

  /** The windows of the unmet slots start over. */
  function Rested(slots: seq<Slot>, required: seq<Requirement>, alive: set<nat>): (r: seq<Slot>)
    ensures |r| == |slots|
    ensures forall i :: 0 <= i < |r| ==>
      r[i] == if Unmet(slots, required, alive, i) then RestedSlot(slots[i]) else slots[i]
  {
    seq(|slots|, i requires 0 <= i < |slots| =>
      if Unmet(slots, required, alive, i) then RestedSlot(slots[i]) else slots[i])
  }

  /** The seal observes the slot: a registration that shrinks, asked for some units, with a version. */
  predicate Observes(slots: seq<Slot>, required: seq<Requirement>, i: nat) {
    && i < |slots| && i < |required| && required[i].units != 0 && slots[i].registration.Some? && slots[i].current.named
    && Shrinks(slots[i].registration.value.shrink)
  }

  function Observing(slots: seq<Slot>, required: seq<Requirement>, now: int, i: nat): (Observed, Window)
    requires Observes(slots, required, i)
  {
    Observation(slots[i].registration.value.shrink, slots[i].registration.value.policy, slots[i].current.units, slots[i].window,
      Ask(required[i].units, now))
  }

  /** The slots observed up to n. */
  function Watched(slots: seq<Slot>, required: seq<Requirement>, now: int, n: nat): (r: seq<Slot>)
    ensures |r| == |slots|
    ensures forall i :: 0 <= i < |r| ==>
      r[i] == if i < n && Observes(slots, required, i) then slots[i].(window := Observing(slots, required, now, i).1) else slots[i]
  {
    seq(|slots|, i requires 0 <= i < |slots| =>
      if i < n && Observes(slots, required, i) then slots[i].(window := Observing(slots, required, now, i).1) else slots[i])
  }

  predicate ShrinksHere(slots: seq<Slot>, required: seq<Requirement>, now: int, i: nat) {
    Observes(slots, required, i) && Observing(slots, required, now, i).0.ShrinksTo?
  }

  /** A shrink's size is past 64 bits, or cannot be posted. */
  ghost predicate ShrinkThrows(slots: seq<Slot>, required: seq<Requirement>, now: int, alive: set<nat>, hasUploader: bool) {
    exists i: nat :: Observes(slots, required, i) &&
      (Observing(slots, required, now, i).0.Throws?
       || (ShrinksHere(slots, required, now, i) && slots[i].buffer in alive
           && Unpostable(slots[i], Observing(slots, required, now, i).0.target, hasUploader)))
  }

  /** A batch of shrinks: exactly the living observed slots whose windows closed, at their smaller sizes. */
  ghost predicate ShrinkBatch(batch: Batch, slots: seq<Slot>, required: seq<Requirement>, now: int, alive: set<nat>) {
    && batch.state == InFlight && |batch.units| == |batch.slots|
    && (forall i: nat :: i in batch.slots <==> ShrinksHere(slots, required, now, i) && slots[i].buffer in alive)
    && (forall k :: 0 <= k < |batch.slots| && ShrinksHere(slots, required, now, batch.slots[k]) ==>
          batch.units[k] == Observing(slots, required, now, batch.slots[k]).0.target)
  }

  /** A living slot's window closes here. */
  ghost predicate AnyShrinks(slots: seq<Slot>, required: seq<Requirement>, now: int, alive: set<nat>) {
    exists i: nat :: ShrinksHere(slots, required, now, i) && slots[i].buffer in alive
  }

  /** A batch of growths: exactly the living unmet slots, at what each grows to. */
  ghost predicate GrowthBatch(batch: Batch, slots: seq<Slot>, required: seq<Requirement>, alive: set<nat>) {
    && batch.state == InFlight && |batch.units| == |batch.slots|
    && (forall i: nat :: i in batch.slots <==> Unmet(slots, required, alive, i) && slots[i].buffer in alive)
    && (forall k :: 0 <= k < |batch.slots| && Unmet(slots, required, alive, batch.slots[k]) ==>
          GrowthOf(slots, required, batch.slots[k]) == Made(batch.units[k]))
  }

  lemma GrowthCovers(batch: Batch, slots: seq<Slot>, required: seq<Requirement>, alive: set<nat>)
    requires GrowthBatch(batch, slots, required, alive)
    ensures Covers(batch, slots, required, alive)
  {
    forall k | 0 <= k < |batch.slots| ensures RequiredOf(required, batch.slots[k]).units <= batch.units[k] {
      var i := batch.slots[k];
      assert i in batch.slots;
      GrowToHolds(RequiredOf(required, i), slots[i].registration.value.policy, slots[i].current.units);
    }
  }

  /** The asks are the unmet slots, each at what it grows to. */
  ghost predicate GrowAsks(asks: Asks, slots: seq<Slot>, required: seq<Requirement>, alive: set<nat>) {
    && Distinct(asks) && (forall i: nat :: i in Firsts(asks) <==> Unmet(slots, required, alive, i))
    && (forall k :: 0 <= k < |asks| ==>
          Unmet(slots, required, alive, asks[k].0) && GrowthOf(slots, required, asks[k].0) == Made(asks[k].1))
  }

  lemma UnmetAsks(former: seq<Slot>, slots: seq<Slot>, required: seq<Requirement>, alive: set<nat>, unmet: seq<nat>, asks: Asks)
    requires SlotsKept(former, slots) && Apart(unmet) && |asks| == |unmet|
    requires forall i: nat :: i in unmet <==> Unmet(former, required, alive, i)
    requires forall k :: 0 <= k < |asks| ==>
      asks[k].0 == unmet[k] && Unmet(former, required, alive, unmet[k]) && GrowthOf(former, required, unmet[k]) == Made(asks[k].1)
    ensures GrowAsks(asks, former, required, alive) && Askable(asks, slots)
  {
    forall i: nat ensures i in Firsts(asks) <==> i in unmet {
      if i in unmet {
        var k :| 0 <= k < |unmet| && unmet[k] == i;
        assert asks[k].0 == i;
      }
    }
    forall k | 0 <= k < |asks| ensures slots[asks[k].0].registration.Some? { assert SameButAsked(former[asks[k].0], slots[asks[k].0]); }
  }

  /** Posting the growths throws, or finds none alive, exactly as the slots say. */
  lemma GrowthsPosted(former: seq<Slot>, slots: seq<Slot>, required: seq<Requirement>, alive: set<nat>, asks: Asks, hasUploader: bool)
    requires SlotsKept(former, slots) && GrowAsks(asks, former, required, alive) && Askable(asks, slots)
    ensures (exists k :: 0 <= k < |asks| && Stops(asks[k], slots, alive, hasUploader)) <==> GrowThrows(former, required, alive, hasUploader)
    ensures Living(asks, slots, alive) == [] <==> !LivingUnmet(former, required, alive)
  {
    forall i | 0 <= i < |slots| ensures SameButAsked(former[i], slots[i]) {}
    NoneLive(asks, slots, alive);
    if GrowThrows(former, required, alive, hasUploader) {
      var i: nat :| Unmet(former, required, alive, i) && (GrowthOf(former, required, i).PastLimit?
        || (former[i].buffer in alive && Unpostable(former[i], GrowthOf(former, required, i).value, hasUploader)));
      var k :| 0 <= k < |asks| && asks[k].0 == i;
      assert Stops(asks[k], slots, alive, hasUploader);
    }
    if k :| 0 <= k < |asks| && Stops(asks[k], slots, alive, hasUploader) {
      assert Unmet(former, required, alive, asks[k].0);
    }
  }

  lemma PairsGrow(batch: Batch, former: seq<Slot>, slots: seq<Slot>, required: seq<Requirement>, alive: set<nat>, asks: Asks)
    requires SlotsKept(former, slots) && GrowAsks(asks, former, required, alive) && Askable(asks, slots)
    requires batch.state == InFlight && IsPairs(batch.slots, batch.units, Living(asks, slots, alive))
    ensures GrowthBatch(batch, former, required, alive)
  {
    PairsLive(batch, asks, slots, alive);
    forall i | 0 <= i < |slots| ensures former[i].buffer == slots[i].buffer { assert SameButAsked(former[i], slots[i]); }
    forall k | 0 <= k < |batch.slots| ensures GrowthOf(former, required, batch.slots[k]) == Made(batch.units[k]) {
      var j :| 0 <= j < |asks| && asks[j] == (batch.slots[k], batch.units[k]);
    }
  }

  /** The shrinks asked of the first n slots: those whose windows closed, at their smaller sizes. */
  ghost predicate Shrunk(shrinks: Asks, slots: seq<Slot>, required: seq<Requirement>, now: int, n: nat) {
    && Distinct(shrinks) && (forall i: nat :: i in Firsts(shrinks) <==> i < n && ShrinksHere(slots, required, now, i))
    && (forall k :: 0 <= k < |shrinks| ==>
          ShrinksHere(slots, required, now, shrinks[k].0) && Observing(slots, required, now, shrinks[k].0).0 == ShrinksTo(shrinks[k].1))
  }

  lemma ShrunkPast(shrinks: Asks, slots: seq<Slot>, required: seq<Requirement>, now: int, i: nat)
    requires Shrunk(shrinks, slots, required, now, i)
    ensures !ShrinksHere(slots, required, now, i) ==> Shrunk(shrinks, slots, required, now, i + 1)
    ensures ShrinksHere(slots, required, now, i) ==>
      Shrunk(shrinks + [(i, Observing(slots, required, now, i).0.target)], slots, required, now, i + 1)
  {
    if ShrinksHere(slots, required, now, i) {
      var more := shrinks + [(i, Observing(slots, required, now, i).0.target)];
      forall j | 0 <= j < |shrinks| ensures shrinks[j].0 < i { assert shrinks[j].0 in Firsts(shrinks); }
      forall j: nat ensures j in Firsts(more) <==> j in Firsts(shrinks) || j == i {
        if j in Firsts(shrinks) {
          var k :| 0 <= k < |shrinks| && shrinks[k].0 == j;
          assert more[k].0 == j;
        }
        assert more[|shrinks|].0 == i;
      }
    }
  }

  lemma ShrinksPosted(former: seq<Slot>, slots: seq<Slot>, required: seq<Requirement>, now: int, shrinks: Asks, alive: set<nat>,
      hasUploader: bool)
    requires SlotsKept(former, slots) && Shrunk(shrinks, former, required, now, |former|)
    requires forall i: nat :: Observes(former, required, i) ==> !Observing(former, required, now, i).0.Throws?
    ensures Askable(shrinks, slots)
    ensures (exists k :: 0 <= k < |shrinks| && Stops(shrinks[k], slots, alive, hasUploader)) <==>
      ShrinkThrows(former, required, now, alive, hasUploader)
    ensures Living(shrinks, slots, alive) == [] <==> !AnyShrinks(former, required, now, alive)
    ensures shrinks == [] ==> !AnyShrinks(former, required, now, alive)
  {
    forall i | 0 <= i < |slots| ensures SameButAsked(former[i], slots[i]) {}
    NoneLive(shrinks, slots, alive);
    if ShrinkThrows(former, required, now, alive, hasUploader) {
      var i: nat :| Observes(former, required, i) && (Observing(former, required, now, i).0.Throws?
        || (ShrinksHere(former, required, now, i) && former[i].buffer in alive
            && Unpostable(former[i], Observing(former, required, now, i).0.target, hasUploader)));
      assert i in Firsts(shrinks);
      var k :| 0 <= k < |shrinks| && shrinks[k].0 == i;
      assert Stops(shrinks[k], slots, alive, hasUploader);
    }
    if k :| 0 <= k < |shrinks| && Stops(shrinks[k], slots, alive, hasUploader) {
      assert ShrinksHere(former, required, now, shrinks[k].0);
    }
  }

  lemma PairsShrink(batch: Batch, former: seq<Slot>, slots: seq<Slot>, required: seq<Requirement>, now: int, shrinks: Asks, alive: set<nat>)
    requires SlotsKept(former, slots) && Shrunk(shrinks, former, required, now, |former|) && Askable(shrinks, slots)
    requires batch.state == InFlight && IsPairs(batch.slots, batch.units, Living(shrinks, slots, alive))
    ensures ShrinkBatch(batch, former, required, now, alive)
  {
    PairsLive(batch, shrinks, slots, alive);
    forall i | 0 <= i < |slots| ensures former[i].buffer == slots[i].buffer { assert SameButAsked(former[i], slots[i]); }
    forall k | 0 <= k < |batch.slots| ensures Observing(former, required, now, batch.slots[k]).0.target == batch.units[k]
      && ShrinksHere(former, required, now, batch.slots[k])
    {
      var j :| 0 <= j < |shrinks| && shrinks[j] == (batch.slots[k], batch.units[k]);
    }
  }

  /** A slot whose open window is not due shrinks for no ask up to the window's peak: sealing again for it would change nothing. */
  lemma NotDueNotShrunk(slots: seq<Slot>, required: seq<Requirement>, now: int, i: nat)
    requires Observes(slots, required, i) && 0 < slots[i].window.seen < MAX_U32 && required[i].units <= slots[i].window.peak
    requires !IsDue(slots[i].registration.value.shrink, slots[i].window, now)
    ensures !ShrinksHere(slots, required, now, i)
  {
    var seen := slots[i].window.seen;
    assert (seen + 1) % (MAX_U32 + 1) == seen + 1;
  }

  /** Resting windows changes nothing that is asked or named. */
  lemma RestedKept(slots: seq<Slot>, required: seq<Requirement>, alive: set<nat>)
    ensures SlotsKept(slots, Rested(slots, required, alive))
    ensures Known(slots, required) ==> Known(Rested(slots, required, alive), required)
    ensures forall i: nat :: Unmet(slots, required, alive, i) <==> Unmet(Rested(slots, required, alive), required, alive, i)
    ensures !AnyUnmet(slots, required, alive) ==> Rested(slots, required, alive) == slots
  {
    var rested := Rested(slots, required, alive);
    forall i | 0 <= i < |slots| ensures SameButAsked(slots[i], rested[i]) {}
    UnmetKept(slots, rested, required, alive);
  }

  lemma CoversKept(batch: Batch, former: seq<Slot>, slots: seq<Slot>, required: seq<Requirement>, alive: set<nat>)
    requires Covers(batch, former, required, alive) && SlotsKept(former, slots)
    ensures Covers(batch, slots, required, alive)
  {
    UnmetKept(former, slots, required, alive);
    forall i | 0 <= i < |slots| ensures former[i].buffer == slots[i].buffer { assert SameButAsked(former[i], slots[i]); }
  }

  // ---- latches ----

  /** The block a lacking latch gets: from nothing for another layout, else grown by the policy. */
  function BlockFor(slot: LatchSlot, ask: LatchAsk): G.Capacity
    requires slot.policy.Some?
  {
    NextCapacity(slot.policy.value, if slot.block.Some? && slot.layoutKey == ask.layoutKey then slot.block.value.stride else 0, ask.bytes)
  }

  /** The ask names no latch of the set, or one whose block would pass 32 bits. */
  predicate LatchStops(latches: seq<LatchSlot>, asks: seq<LatchAsk>, i: nat) {
    && i < |asks| && asks[i].asked
    && (i >= |latches| || latches[i].policy.None?
        || (!Latches(latches[i], asks[i]) && (BlockFor(latches[i], asks[i]).PastLimit? || BlockFor(latches[i], asks[i]).value > MAX_U32)))
  }

  ghost predicate LatchesStop(latches: seq<LatchSlot>, asks: seq<LatchAsk>) {
    exists i: nat :: LatchStops(latches, asks, i)
  }

  /** The latch with the block the ask gives it, under a new serial; as it was when it had one, or was not asked. */
  predicate FittedLatch(former: LatchSlot, slot: LatchSlot, asked: bool, ask: LatchAsk, from: nat, to: nat) {
    if !asked || !ask.asked || Latches(former, ask) then slot == former
    else
      && former.policy.Some? && slot.block.Some? && from < slot.block.value.id <= to
      && BlockFor(former, ask) == Made(slot.block.value.stride)
      && slot == former.(block := slot.block, layoutKey := ask.layoutKey)
  }

  /** The first n asks fitted. */
  predicate FittedTo(former: seq<LatchSlot>, latches: seq<LatchSlot>, asks: seq<LatchAsk>, n: nat, from: nat, to: nat)
    requires n <= |asks|
  {
    && |latches| == |former|
    && forall i :: 0 <= i < |latches| ==>
         FittedLatch(former[i], latches[i], i < n, if i < n then asks[i] else LatchAsk(false, 0, 0), from, to)
  }

  lemma FittedUntil(former: seq<LatchSlot>, latches: seq<LatchSlot>, asks: seq<LatchAsk>, i: nat, from: nat, to: nat)
    requires i < |asks| && FittedTo(former, latches, asks, i, from, to)
    ensures i < |latches| ==> latches[i] == former[i]
    ensures (i < |latches| ==> !asks[i].asked || Latches(former[i], asks[i])) ==> FittedTo(former, latches, asks, i + 1, from, to)
  {}

  lemma FittedNext(former: seq<LatchSlot>, before: seq<LatchSlot>, latches: seq<LatchSlot>, asks: seq<LatchAsk>, i: nat, from: nat, to: nat)
    requires i < |asks| && i < |former| == |before| == |latches| && asks[i].asked && !Latches(former[i], asks[i]) && former[i].policy.Some? && from < to
    requires FittedTo(former, before, asks, i, from, to - 1) && latches == before[i := latches[i]] && latches[i].block.Some?
    requires latches[i] == before[i].(block := latches[i].block, layoutKey := asks[i].layoutKey) && latches[i].block.value.id == to
    requires BlockFor(before[i], asks[i]) == Made(latches[i].block.value.stride)
    ensures FittedTo(former, latches, asks, i + 1, from, to)
  {
    assert before[i] == former[i];
  }

  // ---- what a seal decides ----

  datatype Verdict = ToName | ToPend | ToRefuse | ToThrow

  /** What a seal makes of a build, when it has taken the registrations in; `batched` while a batch is in flight. */
  ghost function VerdictOf(t: Taken, batched: bool, build: Build, alive: set<nat>, now: int, growAccepted: bool, hasUploader: bool): Verdict {
    if !Known(t.slots, build.required) then ToThrow
    else if AnyUnmet(t.slots, build.required, alive) && batched then ToPend
    else if GrowThrows(t.slots, build.required, alive, hasUploader) then ToThrow
    else if LivingUnmet(t.slots, build.required, alive) then (if growAccepted then ToPend else ToRefuse)
    else if !batched && ShrinkThrows(Rested(t.slots, build.required, alive), build.required, now, alive, hasUploader) then ToThrow
    else if LatchesStop(t.latches, build.latches) then ToThrow
    else ToName
  }

  /** The windows a sealed set leaves: those unmet started over, then each asked one moved by its ask, unless a batch is in flight. */
  function WindowsAfter(slots: seq<Slot>, batched: bool, required: seq<Requirement>, alive: set<nat>, now: int): seq<Slot> {
    if batched then slots else Watched(Rested(slots, required, alive), required, now, |slots|)
  }

  /** Nothing unmet: a seal neither waits nor is refused. */
  lemma MetNeverWaits(t: Taken, batched: bool, build: Build, alive: set<nat>, now: int, growAccepted: bool, hasUploader: bool)
    requires !AnyUnmet(t.slots, build.required, alive)
    ensures VerdictOf(t, batched, build, alive, now, growAccepted, hasUploader) in {ToName, ToThrow}
  {}

  predicate AllLatch(latches: seq<LatchSlot>, asks: seq<LatchAsk>) {
    forall i :: 0 <= i < |asks| && asks[i].asked ==> i < |latches| && Latches(latches[i], asks[i])
  }

  /** Every requirement of a live buffer is met by the version in its slot, and that one is no unmade Zero. */
  predicate MetAll(slots: seq<Slot>, required: seq<Requirement>, alive: set<nat>) {
    && Known(slots, required)
    && forall i :: 0 <= i < |required| && Demands(required[i]) && slots[i].buffer in alive ==>
         MetBy(required[i], slots[i].current.units, slots[i].current.serial) && NamedEntry(slots[i]) == slots[i].current
  }

  lemma MetByAll(former: seq<Slot>, slots: seq<Slot>, required: seq<Requirement>, alive: set<nat>)
    requires SlotsKept(former, slots) && Known(former, required)
    requires forall i :: 0 <= i < |former| && Unmet(former, required, alive, i) ==> former[i].buffer !in alive
    requires forall i :: 0 <= i < |slots| ==> slots[i].current.named || slots[i].current == NO_ENTRY
    ensures MetAll(slots, required, alive)
  {
    forall i | 0 <= i < |required| && Demands(required[i])
      ensures i < |slots| && slots[i].registration.Some?
      ensures slots[i].buffer in alive ==>
        MetBy(required[i], slots[i].current.units, slots[i].current.serial) && NamedEntry(slots[i]) == slots[i].current
    {
      assert SameButAsked(former[i], slots[i]);
      assert !Unmet(former, required, alive, i) || former[i].buffer !in alive;
    }
  }

  lemma UnmetKept(a: seq<Slot>, b: seq<Slot>, required: seq<Requirement>, alive: set<nat>)
    requires SlotsKept(a, b)
    ensures forall i: nat :: Unmet(a, required, alive, i) <==> Unmet(b, required, alive, i)
  {
    forall i: nat ensures Unmet(a, required, alive, i) <==> Unmet(b, required, alive, i) {
      if i < |a| { assert SameButAsked(a[i], b[i]); }
    }
  }

  /** The latch has a block of the layout asked, with room for it. */
  predicate Latches(slot: LatchSlot, ask: LatchAsk) {
    slot.policy.Some? && slot.block.Some? && slot.layoutKey == ask.layoutKey && slot.block.value.stride >= ask.bytes
  }

  lemma KeptTwice(a: seq<Slot>, b: seq<Slot>, c: seq<Slot>)
    requires SlotsKept(a, b) && SlotsKept(b, c)
    ensures SlotsKept(a, c)
  {
    forall i | 0 <= i < |a| ensures SameButAsked(a[i], c[i]) {
      assert SameButAsked(a[i], b[i]) && SameButAsked(b[i], c[i]);
    }
  }

  /** What no sealed set sees of the slots may change. */
  lemma KeptNames(a: seq<Slot>, b: seq<Slot>)
    requires SlotsKept(a, b)
    ensures NamedEntries(a) == NamedEntries(b)
  {
    forall i | 0 <= i < |a| ensures NamedEntry(a[i]) == NamedEntry(b[i]) {
      assert SameButAsked(a[i], b[i]);
    }
  }

  lemma SettledNext(former: seq<Slot>, before: seq<Slot>, slots: seq<Slot>, batch: Batch, n: nat, from: nat, mid: nat, to: nat)
    requires n < |batch.slots| && Apart(batch.slots) && batch.slots[n] < |former| && from <= mid <= to
    requires SettledTo(former, before, batch, n, from, mid)
    requires |slots| == |before| && slots == before[batch.slots[n] := slots[batch.slots[n]]]
    requires Settles(before[batch.slots[n]], slots[batch.slots[n]], BatchBytes(batch, n), mid, to)
    ensures SettledTo(former, slots, batch, n + 1, from, to)
  {
    assert batch.slots[..n + 1] == batch.slots[..n] + [batch.slots[n]];
    assert batch.slots[n] !in batch.slots[..n];
  }

  /** The first n requests of a batch settled. */
  predicate SettledTo(former: seq<Slot>, slots: seq<Slot>, batch: Batch, n: nat, from: nat, to: nat)
    requires n <= |batch.slots|
  {
    && |slots| == |former|
    && (forall k :: 0 <= k < n && batch.slots[k] < |slots| ==>
          Settles(former[batch.slots[k]], slots[batch.slots[k]], BatchBytes(batch, k), from, to))
    && (forall i :: 0 <= i < |slots| && i !in batch.slots[..n] ==> slots[i] == former[i])
  }
}
