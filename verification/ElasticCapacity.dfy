/** A capacity that follows its need both ways (include/ORGModuleServices/ElasticCapacity.h): grown past the need, shrunk once the need
    stayed low for a window of asks. Time is an integer the caller reads; it may read the same one twice. */
module ElasticCapacity {
  import opened Bytes
  import opened GrowthPolicy

  const MAX_U32: nat := 0xffff_ffff

  datatype ShrinkPolicy = ShrinkPolicy(usedPercent: nat, settle: int, observations: nat)

  predicate Shrinks(policy: ShrinkPolicy) {
    policy.usedPercent != 0
  }

  function WhenBelow(percent: nat, settle: int, observations: nat): ShrinkPolicy {
    ShrinkPolicy(percent, settle, if observations == 0 then 1 else observations)
  }

  datatype Window = Window(peak: nat, seen: nat, since: int)
  datatype Ask = Ask(need: nat, now: int)
  datatype Observed = Keeps | ShrinksTo(target: nat) | Throws

  /** An ask at or below the threshold. */
  predicate Low(policy: ShrinkPolicy, capacity: nat, need: nat) {
    need <= SplitPercent(capacity, policy.usedPercent)
  }

  /** The window with one low ask more. */
  function Opened(w: Window, ask: Ask): Window {
    Window(if w.seen == 0 || ask.need > w.peak then ask.need else w.peak,
           if w.seen < MAX_U32 then w.seen + 1 else w.seen,
           if w.seen == 0 then ask.now else w.since)
  }

  predicate Closes(policy: ShrinkPolicy, w: Window, now: int) {
    policy.observations <= w.seen && policy.settle <= now - w.since
  }

  function Reset(w: Window): Window {
    Window(0, 0, w.since)
  }

  /** One ask's effect on the window, and what it says of the capacity. */
  function Observation(policy: ShrinkPolicy, growth: GrowthPolicy, capacity: nat, w: Window, ask: Ask): (Observed, Window) {
    if !Shrinks(policy) || capacity == 0 then (Keeps, w)
    else if !Low(policy, capacity, ask.need) then (Keeps, Reset(w))
    else
      var open := Opened(w, ask);
      if !Closes(policy, open, ask.now) then (Keeps, open)
      else
        var target := if open.peak != 0 then NextCapacity(growth, 0, open.peak) else Made(0);
        if target.PastLimit? then (Throws, open)
        else if target.value >= capacity then (Keeps, Reset(open))
        else (ShrinksTo(target.value), Reset(open))
  }

  /** The source's `seen + 1` is 32-bit. */
  predicate IsDue(policy: ShrinkPolicy, w: Window, now: int) {
    Shrinks(policy) && w.seen != 0 && (w.seen + 1) % (MAX_U32 + 1) >= policy.observations && now - w.since >= policy.settle
  }

  /** A window is due exactly when a low ask no larger than its peak would close it now: but for a policy of one observation that closes
      a window as it opens, and a window seen 2^32 - 1 times, whose next count wraps to nothing. */
  lemma DueExactly(percent: nat, settle: int, observations: nat, w: Window, need: nat, now: int)
    requires percent != 0 && observations <= MAX_U32 && w.seen <= MAX_U32 && need <= w.peak
    ensures var policy := WhenBelow(percent, settle, observations);
      (IsDue(policy, w, now) <==> Closes(policy, Opened(w, Ask(need, now)), now)) <==>
        !(w.seen == 0 && observations <= 1 && settle <= 0) && !(w.seen == MAX_U32 && settle <= now - w.since)
  {
    assert w.seen < MAX_U32 ==> (w.seen + 1) % (MAX_U32 + 1) == w.seen + 1;
  }

  /** The first of these: an unopened window that the very next ask closes. */
  lemma UnopenedIsNotDue(growth: GrowthPolicy)
    ensures var policy, w := WhenBelow(25, 0, 1), Window(0, 0, 0);
      (forall now :: !IsDue(policy, w, now)) && Observation(policy, growth, 8, w, Ask(0, 0)).0 == ShrinksTo(0)
  {}

  /** The second: however long it waits, the window is never due, though past its settle time the next such ask shrinks the capacity. */
  lemma SaturatedIsNeverDue(growth: GrowthPolicy)
    requires growth.kind.Doubling? && growth.minimum == 1
    ensures var policy, w := WhenBelow(25, 10, 2), Window(1, MAX_U32, 0);
      (forall now :: !IsDue(policy, w, now)) && Observation(policy, growth, 8, w, Ask(1, 10)).0 == ShrinksTo(1)
  {
    assert SplitPercent(8, 25) == 2;
    assert NextCapacity(growth, 0, 1) == Made(1);
  }

  class ShrinkWindow {
    var peak: nat
    var seen: nat
    var since: int

    constructor ()
      ensures Value() == Window(0, 0, 0)
    {
      peak, seen, since := 0, 0, 0;
    }

    function Value(): Window
      reads this
    {
      Window(peak, seen, since)
    }

    method Clear()
      modifies this
      ensures Value() == Reset(old(Value()))
    {
      peak, seen := 0, 0;
    }

    method Observe(policy: ShrinkPolicy, growth: GrowthPolicy, capacity: nat, need: nat, now: int) returns (r: Observed)
      requires capacity <= MAX_U64 && need <= MAX_U64 && peak <= MAX_U64 && growth.minimum <= MAX_U64
      modifies this
      ensures (r, Value()) == Observation(policy, growth, capacity, old(Value()), Ask(need, now))
      ensures peak <= MAX_U64
    {
      if !Shrinks(policy) || capacity == 0 { return Keeps; }
      var low := need <= Wrap(Wrap(capacity / 100 * policy.usedPercent) + Wrap(capacity % 100 * policy.usedPercent) / 100);
      if !low {
        Clear();
        return Keeps;
      }
      if seen == 0 {
        since, peak := now, need;
      } else if need > peak {
        peak := need;
      }
      if seen < MAX_U32 { seen := seen + 1; }
      if seen < policy.observations || now - since < policy.settle { return Keeps; }
      var target := Made(0);
      if peak != 0 { target := Next(growth, 0, peak); }
      if target.PastLimit? { return Throws; }
      Clear();
      if target.value >= capacity { return Keeps; }
      r := ShrinksTo(target.value);
    }
  }

  datatype Fitted = Fits(moved: bool) | Threw

  datatype Elastic = Elastic(capacity: nat, window: Window)

  /** FitCapacity on a capacity whose type holds up to `limit`. */
  function Fitting(e: Elastic, limit: nat, ask: Ask, growth: GrowthPolicy, shrink: ShrinkPolicy): (Fitted, Elastic) {
    if ask.need > e.capacity then
      var made := NextCapacity(growth, e.capacity, ask.need);
      if made.PastLimit? || made.value > limit then (Threw, e)
      else (Fits(made.value != e.capacity), Elastic(made.value, Reset(e.window)))
    else
      var (r, w) := Observation(shrink, growth, e.capacity, e.window, ask);
      match r
      case Keeps => (Fits(false), Elastic(e.capacity, w))
      case ShrinksTo(target) => (Fits(true), Elastic(target, w))
      case Throws => (Threw, Elastic(e.capacity, w))
  }

  /** A capacity and its window. */
  class Capacity {
    var value: nat
    const limit: nat
    const window: ShrinkWindow

    constructor (limit: nat)
      ensures value == 0 && this.limit == limit && fresh(window) && window.Value() == Window(0, 0, 0)
    {
      value, this.limit := 0, limit;
      window := new ShrinkWindow();
    }

    function Elastically(): Elastic
      reads this, window
    {
      Elastic(value, window.Value())
    }

    method Fit(need: nat, growth: GrowthPolicy, shrink: ShrinkPolicy, now: int) returns (r: Fitted)
      requires value <= MAX_U64 && need <= MAX_U64 && window.peak <= MAX_U64 && growth.minimum <= MAX_U64
      modifies this, window
      ensures (r, Elastically()) == Fitting(old(Elastically()), limit, Ask(need, now), growth, shrink)
      ensures window.peak <= MAX_U64
    {
      var current := value;
      if need > current {
        var made := NextAs(growth, value, need, limit);
        if made.PastLimit? { return Threw; }
        value := made.value;
        window.Clear();
        return Fits(value != current);
      }
      var target := window.Observe(shrink, growth, current, need, now);
      if target.Throws? { return Threw; }
      if target.ShrinksTo? {
        value := target.target;
        return Fits(true);
      }
      r := Fits(false);
    }
  }

  /** After a fit the capacity holds the need, and `moved` says whether it changed. */
  lemma FitHolds(e: Elastic, limit: nat, ask: Ask, growth: GrowthPolicy, shrink: ShrinkPolicy)
    ensures var (r, e') := Fitting(e, limit, ask, growth, shrink);
      && (r.Fits? ==> ask.need <= e'.capacity && (r.moved <==> e'.capacity != e.capacity))
      && (r.Threw? ==> e'.capacity == e.capacity)
      && (ask.need <= e.capacity ==> e'.capacity <= e.capacity)
  {
    var open := Opened(e.window, ask);
    NextHolds(growth, 0, open.peak);
    NextHolds(growth, e.capacity, ask.need);
  }

  // ---- any sequence of asks ----

  /** A capacity after a run of asks. */
  function After(e: Elastic, limit: nat, asks: seq<Ask>, growth: GrowthPolicy, shrink: ShrinkPolicy): Elastic
    decreases |asks|
  {
    if asks == [] then e else After(Fitting(e, limit, asks[0], growth, shrink).1, limit, asks[1..], growth, shrink)
  }

  /** A capacity with the asks of its open window. */
  datatype Tracked = Tracked(e: Elastic, asks: seq<Ask>)

  /** The open window's asks after one more. */
  function Asks(t: Tracked, limit: nat, ask: Ask, growth: GrowthPolicy, shrink: ShrinkPolicy): seq<Ask> {
    var (r, e') := Fitting(t.e, limit, ask, growth, shrink);
    if e'.window.seen == 0 then []
    else if ask.need > t.e.capacity || !Shrinks(shrink) || t.e.capacity == 0 then t.asks
    else t.asks + [ask]
  }

  function Step(t: Tracked, limit: nat, ask: Ask, growth: GrowthPolicy, shrink: ShrinkPolicy): Tracked {
    Tracked(Fitting(t.e, limit, ask, growth, shrink).1, Asks(t, limit, ask, growth, shrink))
  }

  /** The window is its asks: the most asked, how many (up to 32 bits), since when; each was low. */
  ghost predicate WindowOf(t: Tracked, shrink: ShrinkPolicy) {
    && (t.e.window.seen == 0 <==> t.asks == [])
    && t.e.window.seen == (if |t.asks| < MAX_U32 then |t.asks| else MAX_U32)
    && (t.asks != [] ==> t.e.window.since == t.asks[0].now)
    && (t.asks != [] ==> exists ask :: ask in t.asks && ask.need == t.e.window.peak)
    && (forall ask :: ask in t.asks ==> ask.need <= t.e.window.peak && Low(shrink, t.e.capacity, ask.need))
  }

  lemma StepWindow(t: Tracked, limit: nat, ask: Ask, growth: GrowthPolicy, shrink: ShrinkPolicy)
    requires WindowOf(t, shrink)
    ensures WindowOf(Step(t, limit, ask, growth, shrink), shrink)
  {
    var t' := Step(t, limit, ask, growth, shrink);
    if t'.asks == t.asks + [ask] {
      assert ask in t'.asks;
      assert forall a :: a in t'.asks <==> a in t.asks || a == ask;
    }
  }

  /** A shrink closes a whole window of low asks, long enough, and what it shrinks to is smaller and holds every one of them. */
  lemma ShrinkHoldsItsWindow(t: Tracked, limit: nat, ask: Ask, growth: GrowthPolicy, shrink: ShrinkPolicy)
    requires WindowOf(t, shrink) && ask.need <= t.e.capacity
    requires Fitting(t.e, limit, ask, growth, shrink).0 == Fits(true)
    ensures var target, asks := Fitting(t.e, limit, ask, growth, shrink).1.capacity, t.asks + [ask];
      && target < t.e.capacity
      && (forall a :: a in asks ==> a.need <= target && Low(shrink, t.e.capacity, a.need))
      && (shrink.observations <= |asks| && shrink.settle <= ask.now - asks[0].now)
  {
    var open := Opened(t.e.window, ask);
    NextHolds(growth, 0, open.peak);
  }

  /** A new capacity. */
  const NEW: Elastic := Elastic(0, Window(0, 0, 0))

  /** A new capacity after a run of asks, with those its open window has seen. */
  function Reached(limit: nat, asks: seq<Ask>, growth: GrowthPolicy, shrink: ShrinkPolicy): Tracked {
    if asks == [] then Tracked(NEW, [])
    else Step(Reached(limit, asks[..|asks| - 1], growth, shrink), limit, asks[|asks| - 1], growth, shrink)
  }

  lemma {:induction false} AfterLast(e: Elastic, limit: nat, asks: seq<Ask>, ask: Ask, growth: GrowthPolicy, shrink: ShrinkPolicy)
    ensures After(e, limit, asks + [ask], growth, shrink) == Fitting(After(e, limit, asks, growth, shrink), limit, ask, growth, shrink).1
    decreases |asks|
  {
    if asks == [] {
      assert [ask][1..] == [] && asks + [ask] == [ask];
    } else {
      assert (asks + [ask])[0] == asks[0] && (asks + [ask])[1..] == asks[1..] + [ask];
      AfterLast(Fitting(e, limit, asks[0], growth, shrink).1, limit, asks[1..], ask, growth, shrink);
    }
  }

  /** Over any run of asks the window of a capacity is its open run of low asks: the most asked, how many, since when. */
  lemma {:induction false} EveryWindow(limit: nat, asks: seq<Ask>, growth: GrowthPolicy, shrink: ShrinkPolicy)
    ensures var t := Reached(limit, asks, growth, shrink);
      t.e == After(NEW, limit, asks, growth, shrink) && WindowOf(t, shrink) && forall a :: a in t.asks ==> a in asks
  {
    if asks != [] {
      var before, ask := asks[..|asks| - 1], asks[|asks| - 1];
      EveryWindow(limit, before, growth, shrink);
      assert asks == before + [ask];
      AfterLast(NEW, limit, before, ask, growth, shrink);
      StepWindow(Reached(limit, before, growth, shrink), limit, ask, growth, shrink);
    }
  }

  /** The fit of `ask` shrank the capacity: it closed the window of the asks `low`, all of them low, long and many enough, and what it
      shrank to is smaller and holds every one of them. */
  predicate ClosedBy(former: Elastic, e: Elastic, ask: Ask, low: seq<Ask>, shrink: ShrinkPolicy) {
    && e.capacity < former.capacity && low != [] && low[|low| - 1] == ask
    && (forall a :: a in low ==> a.need <= e.capacity && Low(shrink, former.capacity, a.need))
    && shrink.observations <= |low| && shrink.settle <= ask.now - low[0].now
  }

  /** Over any run of asks, a shrink closes a whole window of low asks of that run. */
  lemma EveryShrinkHolds(limit: nat, asks: seq<Ask>, ask: Ask, growth: GrowthPolicy, shrink: ShrinkPolicy) returns (low: seq<Ask>)
    ensures var e := After(NEW, limit, asks, growth, shrink);
      ask.need <= e.capacity && Fitting(e, limit, ask, growth, shrink).0 == Fits(true) ==>
        ClosedBy(e, After(NEW, limit, asks + [ask], growth, shrink), ask, low, shrink) && forall a :: a in low ==> a in asks + [ask]
  {
    var t := Reached(limit, asks, growth, shrink);
    EveryWindow(limit, asks, growth, shrink);
    AfterLast(NEW, limit, asks, ask, growth, shrink);
    low := t.asks + [ask];
    if ask.need <= t.e.capacity && Fitting(t.e, limit, ask, growth, shrink).0 == Fits(true) {
      ShrinkHoldsItsWindow(t, limit, ask, growth, shrink);
    }
  }

  /** The same low ask, again and again. */
  function Repeated(n: nat): seq<Ask> {
    seq(n, _ => Ask(1, 0))
  }

  lemma {:induction false} CountsUp(limit: nat, seen: nat, n: nat, growth: GrowthPolicy)
    requires seen <= MAX_U32
    ensures After(Elastic(8, Window(if seen == 0 then 0 else 1, seen, 0)), limit, Repeated(n), growth, WhenBelow(25, 10, 2)) ==
      Elastic(8, Window(if seen + n == 0 then 0 else 1, Min(seen + n, MAX_U32), 0))
    decreases n
  {
    if n != 0 {
      assert Repeated(n)[1..] == Repeated(n - 1) && SplitPercent(8, 25) == 2;
      CountsUp(limit, Min(seen + 1, MAX_U32), n - 1, growth);
    }
  }

  /** The window that is never due is reached: from a new capacity, by one ask of 8 and 2^32 - 1 of 1. */
  lemma SaturatedIsReached(limit: nat, growth: GrowthPolicy)
    requires growth.kind.Doubling? && growth.minimum == 1 && 8 <= limit
    ensures After(NEW, limit, [Ask(8, 0)] + Repeated(MAX_U32), growth, WhenBelow(25, 10, 2)) == Elastic(8, Window(1, MAX_U32, 0))
  {
    assert Doubled(4, 8) == Doubled(8, 8) == 8 && Doubled(1, 8) == Doubled(2, 8) == Doubled(4, 8);
    assert Fitting(NEW, limit, Ask(8, 0), growth, WhenBelow(25, 10, 2)).1 == Elastic(8, Window(0, 0, 0));
    assert ([Ask(8, 0)] + Repeated(MAX_U32))[1..] == Repeated(MAX_U32);
    CountsUp(limit, 0, MAX_U32, growth);
  }

  // ---- hysteresis ----

  /** What a Doubling shrink leaves: the fresh capacity for a peak, and a window at rest or within [peak, capacity]. */
  predicate Settled(e: Elastic, growth: GrowthPolicy, peak: nat) {
    && e.capacity == (if peak == 0 then 0 else Doubled(Max(growth.minimum, 1), peak))
    && e.capacity <= MAX_U64
    && (e.window.seen != 0 ==> peak <= e.window.peak <= e.capacity)
  }

  /** A fresh capacity is its base, or less than twice the peak. */
  lemma {:induction false} FreshIsTight(base: nat, peak: nat)
    requires base != 0
    ensures Doubled(base, peak) == base || Doubled(base, peak) < 2 * peak
    decreases if base < peak then peak - base else 0
  {
    if base < peak { FreshIsTight(base * 2, peak); }
  }

  /** A need within the class of a peak makes the same class. */
  lemma {:induction false} SameClass(base: nat, peak: nat, need: nat)
    requires base != 0 && peak <= need <= Doubled(base, peak)
    ensures Doubled(base, need) == Doubled(base, peak)
    decreases if base < peak then peak - base else 0
  {
    if base < peak { SameClass(base * 2, peak, need); }
  }

  lemma HalfProduct(n: nat, percent: nat)
    requires percent <= 50
    ensures n * percent <= 50 * n
  {}

  lemma HalfIsNotLow(shrink: ShrinkPolicy, capacity: nat, need: nat)
    requires shrink.usedPercent <= 50 && capacity <= MAX_U64 && capacity < 2 * need
    ensures !Low(shrink, capacity, need)
  {
    SmallPercent(capacity, shrink.usedPercent);
    HalfProduct(capacity, shrink.usedPercent);
    assert capacity * shrink.usedPercent / 100 <= capacity / 2;
  }

  lemma StaysPut(e: Elastic, growth: GrowthPolicy, shrink: ShrinkPolicy, limit: nat, peak: nat, ask: Ask)
    requires growth.kind.Doubling? && shrink.usedPercent <= 50 && Settled(e, growth, peak) && peak <= ask.need <= e.capacity
    ensures var (r, e') := Fitting(e, limit, ask, growth, shrink); r == Fits(false) && e'.capacity == e.capacity && Settled(e', growth, peak)
  {
    if e.capacity != 0 && Shrinks(shrink) && Low(shrink, e.capacity, ask.need) {
      var base, open := Max(growth.minimum, 1), Opened(e.window, ask);
      FreshIsTight(base, peak);
      if e.capacity < 2 * peak { HalfIsNotLow(shrink, e.capacity, ask.need); }
      assert e.capacity == base && peak <= open.peak <= base;
      SameClass(base, peak, open.peak);
    }
  }

  /** After a Doubling shrink with a threshold of at most half, no run of asks between the peak and the new capacity moves it again. */
  lemma {:induction false} NoThrash(e: Elastic, growth: GrowthPolicy, shrink: ShrinkPolicy, limit: nat, peak: nat, asks: seq<Ask>)
    requires growth.kind.Doubling? && shrink.usedPercent <= 50 && Settled(e, growth, peak)
    requires forall k :: 0 <= k < |asks| ==> peak <= asks[k].need <= e.capacity
    ensures After(e, limit, asks, growth, shrink).capacity == e.capacity
    decreases |asks|
  {
    if asks != [] {
      StaysPut(e, growth, shrink, limit, peak, asks[0]);
      NoThrash(Fitting(e, limit, asks[0], growth, shrink).1, growth, shrink, limit, peak, asks[1..]);
    }
  }

  /** Every shrink settles: its target is the fresh capacity for its window's peak. */
  lemma ShrinkSettles(e: Elastic, limit: nat, ask: Ask, growth: GrowthPolicy, shrink: ShrinkPolicy)
    requires growth.kind.Doubling? && e.capacity <= MAX_U64 && ask.need <= e.capacity
    requires Fitting(e, limit, ask, growth, shrink).0 == Fits(true)
    ensures Settled(Fitting(e, limit, ask, growth, shrink).1, growth, Opened(e.window, ask).peak)
  {}
}
