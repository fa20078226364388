/** A pool's availability wakes, seen from the calls made so far (src/BackingPool.cpp): what holds a backing back, who waits, and that
    whatever may free a backing wakes them all. */
module AvailabilityCalls {
  import opened Availability

  // ---- what holds a backing back ----

  predicate Pins(a: Action, b: nat, readback: bool) {
    a == if readback then PinReadback(b) else PinConsumer(b)
  }

  predicate Unpins(a: Action, b: nat, readback: bool) {
    a == if readback then DropReadback(b) else DropConsumer(b)
  }

  /** Pins taken less pins dropped by the first n steps. */
  function Balance(steps: seq<Step>, n: nat, b: nat, readback: bool): int
    requires n <= |steps|
  {
    if n == 0 then 0
    else
      var a := steps[n - 1].action;
      Balance(steps, n - 1, b, readback) + (if Pins(a, b, readback) then 1 else if Unpins(a, b, readback) then -1 else 0)
  }

  function PinsOf(b: Backing, readback: bool): int {
    if readback then b.readback else b.consumers
  }

  lemma StepConsumers(s: State, t: nat, a: Action, b: nat)
    requires Enabled(s, t, a) && b in s.backings
    ensures b in Apply(s, t, a).backings
    ensures Apply(s, t, a).backings[b].consumers ==
      s.backings[b].consumers + (if a == PinConsumer(b) then 1 else if a == DropConsumer(b) then -1 else 0)
  {}

  lemma StepReadbacks(s: State, t: nat, a: Action, b: nat)
    requires Enabled(s, t, a) && b in s.backings
    ensures b in Apply(s, t, a).backings
    ensures Apply(s, t, a).backings[b].readback ==
      s.backings[b].readback + (if a == PinReadback(b) then 1 else if a == DropReadback(b) then -1 else 0)
  {}

  /** A backing's pins are those taken and not dropped, of either kind. */
  lemma {:induction false} PinsFromCalls(run: seq<State>, steps: seq<Step>, n: nat, b: nat, readback: bool)
    requires IsRun(run, steps) && n < |run| && b in run[0].backings
    ensures b in run[n].backings
    ensures PinsOf(run[n].backings[b], readback) == PinsOf(run[0].backings[b], readback) + Balance(steps, n, b, readback)
  {
    if n > 0 {
      PinsFromCalls(run, steps, n - 1, b, readback);
      var s, step := run[n - 1], steps[n - 1];
      if readback { StepReadbacks(s, step.thread, step.action, b); } else { StepConsumers(s, step.thread, step.action, b); }
    }
  }

  predicate Raises(a: Action, b: nat, point: nat) {
    a == Bind(b, point)
  }

  lemma StepBinds(s: State, t: nat, a: Action, b: nat)
    requires Enabled(s, t, a) && b in s.backings
    ensures b in Apply(s, t, a).backings
    ensures var safeAt, after := s.backings[b].safeAt, Apply(s, t, a).backings[b].safeAt;
      after == if a.Bind? && a.backing == b && safeAt < a.safeAt then a.safeAt else safeAt
    ensures Apply(s, t, a).completed == if a.Advance? && s.completed < a.completed then a.completed else s.completed
  {}

  /** A backing is held for the latest frame that bound it. */
  lemma {:induction false} BoundFromCalls(run: seq<State>, steps: seq<Step>, n: nat, b: nat)
    requires IsRun(run, steps) && n < |run| && b in run[0].backings
    ensures b in run[n].backings && run[0].backings[b].safeAt <= run[n].backings[b].safeAt
    ensures forall k :: 0 <= k < n && steps[k].action.Bind? && steps[k].action.backing == b ==>
      steps[k].action.safeAt <= run[n].backings[b].safeAt
    ensures run[n].backings[b].safeAt == run[0].backings[b].safeAt
      || exists k :: 0 <= k < n && Raises(steps[k].action, b, run[n].backings[b].safeAt)
  {
    if n > 0 {
      BoundFromCalls(run, steps, n - 1, b);
      StepBinds(run[n - 1], steps[n - 1].thread, steps[n - 1].action, b);
      if run[n].backings[b].safeAt != run[n - 1].backings[b].safeAt {
        assert Raises(steps[n - 1].action, b, run[n].backings[b].safeAt);
      }
    }
  }

  // ---- who waits ----

  predicate Wakes(a: Action) {
    a.ExchangeWaiters? || a.ExchangeOwn?
  }

  /** Subscribed by the first n steps, and not woken since. */
  function Waiting(steps: seq<Step>, n: nat): set<nat>
    requires n <= |steps|
  {
    if n == 0 then {}
    else if Wakes(steps[n - 1].action) then {}
    else Waiting(steps, n - 1) + if steps[n - 1].action.PushWaiter? then {steps[n - 1].action.waiter} else {}
  }

  /** A subscriber waits until it is woken. */
  lemma {:induction false} WaitersFromCalls(run: seq<State>, steps: seq<Step>, n: nat)
    requires IsRun(run, steps) && n < |run|
    ensures run[n].waiters == Waiting(steps, n)
  {
    if n > 0 {
      WaitersFromCalls(run, steps, n - 1);
      assert run[n] == Apply(run[n - 1], steps[n - 1].thread, steps[n - 1].action);
    }
  }

  // ---- that what may free a backing wakes them ----

  /** A return's last lease, a last consumer pin dropped, or a clock point reached. */
  predicate MayFree(s: State, a: Action) {
    || a.ReturnLast? || a.RunPoint?
    || (a.DropConsumer? && a.backing in s.backings && s.backings[a.backing].consumers == 1)
  }

  /** Thread t wakes the waiters between the two steps. */
  predicate WokeBetween(steps: seq<Step>, i: nat, j: nat, t: nat) {
    exists k :: i < k < j <= |steps| && steps[k] == Step(t, ExchangeWaiters)
  }

  lemma StepOwes(s: State, u: nat, a: Action, t: nat)
    requires Enabled(s, u, a) && t in s.threads
    ensures t in Apply(s, u, a).threads
    ensures s.threads[t] != Idle && !(u == t && a.ExchangeWaiters?) ==> Apply(s, u, a).threads[t] != Idle
    ensures u == t && MayFree(s, a) ==> Apply(s, u, a).threads[t] != Idle
  {}

  lemma NextOwes(run: seq<State>, steps: seq<Step>, n: nat, t: nat)
    requires IsRun(run, steps) && n < |steps| && t in run[n].threads
    ensures t in run[n + 1].threads
    ensures run[n].threads[t] != Idle && steps[n] != Step(t, ExchangeWaiters) ==> run[n + 1].threads[t] != Idle
    ensures steps[n].thread == t && MayFree(run[n], steps[n].action) ==> run[n + 1].threads[t] != Idle
  {
    StepOwes(run[n], steps[n].thread, steps[n].action, t);
  }

  /** Whatever may free a backing, by the time its thread is done it has woken every waiter there was. */
  lemma {:induction false} FreeingWakes(run: seq<State>, steps: seq<Step>, i: nat, j: nat, t: nat)
    requires IsRun(run, steps) && i < j < |run| && steps[i].thread == t && MayFree(run[i], steps[i].action)
    ensures t in run[j].threads && (run[j].threads[t] == Idle ==> WokeBetween(steps, i, j, t))
    decreases j
  {
    if i + 1 < j {
      FreeingWakes(run, steps, i, j - 1, t);
      NextOwes(run, steps, j - 1, t);
      if WokeBetween(steps, i, j - 1, t) {
        var k :| i < k < j - 1 && steps[k] == Step(t, ExchangeWaiters);
        assert steps[k] == Step(t, ExchangeWaiters) && k < j;
      }
    } else {
      assert Enabled(run[i], t, steps[i].action);
      NextOwes(run, steps, i, t);
    }
  }

  /** An event counted since the acquirer's look makes its subscription wake everyone, itself too. */
  lemma {:induction false} SubscribingWakes(run: seq<State>, steps: seq<Step>, i: nat, j: nat)
    requires IsRun(run, steps) && i < j < |run| && steps[i].action.CheckEvents? && run[i].events != run[i].scanEvents
    requires forall k :: i < k < j ==> !steps[k].action.ExchangeOwn?
    ensures run[j].acquirer.CountingOwn? || run[j].acquirer.ExchangingOwn?
    decreases j
  {
    if i + 1 < j { SubscribingWakes(run, steps, i, j - 1); }
    NextOwnWake(run, steps, j - 1);
  }

  lemma NextOwnWake(run: seq<State>, steps: seq<Step>, n: nat)
    requires IsRun(run, steps) && n < |steps|
    ensures run[n].acquirer.CountingOwn? || (run[n].acquirer.ExchangingOwn? && !steps[n].action.ExchangeOwn?) ==>
      run[n + 1].acquirer.CountingOwn? || run[n + 1].acquirer.ExchangingOwn?
    ensures steps[n].action.CheckEvents? && run[n].events != run[n].scanEvents ==> run[n + 1].acquirer.CountingOwn?
  {
    assert run[n + 1] == Apply(run[n], steps[n].thread, steps[n].action);
  }

  /** The events counted so far. */
  function Events(steps: seq<Step>, n: nat): nat
    requires n <= |steps|
  {
    if n == 0 then 0 else Events(steps, n - 1) + if steps[n - 1].action.CountEvent? || steps[n - 1].action.CountOwn? then 1 else 0
  }

  lemma {:induction false} EventsFromCalls(run: seq<State>, steps: seq<Step>, n: nat)
    requires IsRun(run, steps) && n < |run|
    ensures run[n].events == Events(steps, n)
  {
    if n > 0 {
      EventsFromCalls(run, steps, n - 1);
      assert run[n] == Apply(run[n - 1], steps[n - 1].thread, steps[n - 1].action);
    }
  }

  // ---- the clock's points ----

  /** Subscribed to by the first n steps, and its wake not run since. */
  predicate IsPending(run: seq<State>, steps: seq<Step>, n: nat, p: nat)
    requires IsRun(run, steps) && n < |run|
    decreases n
  {
    && n != 0
    && (|| (steps[n - 1].action.SubscribeClock? && run[n - 1].acquirer.point == p)
        || (IsPending(run, steps, n - 1, p) && steps[n - 1].action != RunPoint(p)))
  }

  lemma StepPoints(s: State, t: nat, a: Action, p: nat)
    requires Enabled(s, t, a)
    ensures p in Apply(s, t, a).points <==> (a.SubscribeClock? && s.acquirer.point == p) || (p in s.points && a != RunPoint(p))
  {}

  /** A point's wake runs once for each subscription. */
  lemma {:induction false} PointsFromCalls(run: seq<State>, steps: seq<Step>, n: nat, p: nat)
    requires IsRun(run, steps) && n < |run|
    ensures p in run[n].points <==> IsPending(run, steps, n, p)
  {
    if n > 0 {
      PointsFromCalls(run, steps, n - 1, p);
      StepPoints(run[n - 1], steps[n - 1].thread, steps[n - 1].action, p);
    }
  }

  /** The armed point only gets sooner, until its own wake clears it: an Acquire arms the sooner of its point and the armed one, and
      subscribes only to a sooner one. */
  lemma ArmsSooner(run: seq<State>, steps: seq<Step>, i: nat)
    requires IsRun(run, steps) && i < |steps|
    ensures var s, s', a := run[i], run[i + 1], steps[i].action;
      if a.SetArmed? then
        && s'.armedAt == Sooner(s.armedAt, s.acquirer.point)
        && s'.acquirer == (if s'.armedAt != s.armedAt then Subscribing(s.acquirer.clock, s.acquirer.point) else Failed)
      else s'.armedAt == if a.ClearArmed? && s.threads[steps[i].thread] == Calling(s.armedAt) then 0 else s.armedAt
  {
    RunInv(run, steps, i);
    assert run[i + 1] == Apply(run[i], steps[i].thread, steps[i].action);
    if steps[i].action.SetArmed? { SetsAhead(run, steps, i); }
  }

  /** The point arming has come to is never 0. */
  lemma {:induction false} SetsAhead(run: seq<State>, steps: seq<Step>, i: nat)
    requires IsRun(run, steps) && i < |run|
    ensures run[i].acquirer.Setting? || run[i].acquirer.Subscribing? ==> run[i].acquirer.point != 0
  {
    if i > 0 {
      SetsAhead(run, steps, i - 1);
      assert run[i] == Apply(run[i - 1], steps[i - 1].thread, steps[i - 1].action);
    }
  }

  // ---- the acquirer ----

  /** A claim takes the backing exactly when no consumer pins it; a pinned one is passed over. What it takes was free, and bound to no
      frame past the clock it read. */
  lemma ClaimsExactly(run: seq<State>, steps: seq<Step>, i: nat)
    requires IsRun(run, steps) && i < |steps| && steps[i].action.ClaimUsable?
    ensures var s, s', b := run[i], run[i + 1], steps[i].action.backing;
      && s.backings[b].place == Free && s.backings[b].safeAt <= s.first
      && (if s.backings[b].consumers == 0 then s'.backings[b].place == Leased && s'.acquirer == Resting
          else s'.backings == s.backings && s'.acquirer == s.acquirer.(usable := s.acquirer.usable - {b}))
  {
    RunInv(run, steps, i);
    UsableIsReached(run, steps, i);
  }

  predicate IsReached(s: State, b: nat) {
    b in s.backings && s.backings[b].place == Free && s.backings[b].safeAt <= s.first
  }

  /** What it would claim is free, and its frames are reached. */
  predicate Reached(s: State) {
    s.acquirer.Scanning? ==> s.acquirer.clock == s.first && forall b :: b in s.acquirer.usable ==> IsReached(s, b)
  }

  lemma StepReached(s: State, t: nat, a: Action)
    requires Enabled(s, t, a) && Reached(s) && Returners(s.backings, s.threads)
    ensures Reached(Apply(s, t, a))
  {}

  lemma {:induction false} UsableIsReached(run: seq<State>, steps: seq<Step>, i: nat)
    requires IsRun(run, steps) && i < |run|
    ensures Reached(run[i])
  {
    if i > 0 {
      UsableIsReached(run, steps, i - 1);
      RunInv(run, steps, i - 1);
      StepReached(run[i - 1], steps[i - 1].thread, steps[i - 1].action);
    }
  }

  /** A readback pin of the backing was released between the acquirer's two looks at it, by the first n steps. */
  predicate DroppedSince(run: seq<State>, steps: seq<Step>, n: nat, b: nat)
    requires IsRun(run, steps) && n < |run|
    decreases n
  {
    if n == 0 then b in run[0].dropped
    else if steps[n - 1].action.StartAcquire? then false
    else (steps[n - 1].action == DropReadback(b) && Between(run[n - 1].acquirer, b)) || DroppedSince(run, steps, n - 1, b)
  }

  lemma StepDropped(s: State, t: nat, a: Action, b: nat)
    requires Enabled(s, t, a)
    ensures b in Apply(s, t, a).dropped <==> !a.StartAcquire? && (b in s.dropped || (a == DropReadback(b) && Between(s.acquirer, b)))
  {}

  lemma {:induction false} DroppedFromCalls(run: seq<State>, steps: seq<Step>, n: nat, b: nat)
    requires IsRun(run, steps) && n < |run|
    ensures b in run[n].dropped <==> DroppedSince(run, steps, n, b)
  {
    if n > 0 {
      DroppedFromCalls(run, steps, n - 1, b);
      StepDropped(run[n - 1], steps[n - 1].thread, steps[n - 1].action, b);
    }
  }

  // ---- nobody waits for anybody ----

  /** Steps a thread has left. */
  function Left(pc: Pc): nat {
    match pc
    case Idle => 0
    case Exchanging => 1
    case Counting => 2
    case Calling(_) => 3
    case Pushing(_) => 3
  }

  function NextOwn(pc: Pc): Action
    requires pc != Idle
  {
    match pc
    case Exchanging => ExchangeWaiters
    case Counting => CountEvent
    case Calling(_) => ClearArmed
    case Pushing(_) => PushReturned
  }

  /** A thread that may have freed a backing is done, with every waiter woken, after at most three steps of its own. */
  lemma ThreadMovesOn(run: seq<State>, steps: seq<Step>, i: nat, t: nat)
    requires IsRun(run, steps) && i < |run| && t in run[i].threads && run[i].threads[t] != Idle
    ensures var a := NextOwn(run[i].threads[t]);
      && Enabled(run[i], t, a)
      && t in Apply(run[i], t, a).threads && Left(Apply(run[i], t, a).threads[t]) < Left(run[i].threads[t])
  {
    RunInv(run, steps, i);
  }

  /** Steps the acquirer has left, at most. */
  function AcquirerLeft(bs: Backings, a: Acquirer): nat {
    match a
    case Resting => 0
    case ExchangingOwn => 1
    case CountingOwn => 2
    case Checking => 3
    case Failed => 4
    case Subscribing(_, _) => 5
    case Setting(_, _) => 6
    case Arming(_, todo, _) => 7 + |todo|
    case Rereading => 8 + |bs|
    case Scanning(_, todo, usable) => 9 + |bs| + 2 * |todo| + |usable|
    case Reading => 10 + 3 * |bs|
    case Taking => 11 + 3 * |bs|
  }

  predicate OfAcquirer(a: Action) {
    || a.TakeReturned? || a.ReadClock? || a.Look? || a.ClaimUsable? || a.EndScan? || a.ReadAgain? || a.LookToArm? || a.EndArming?
    || a.SetArmed? || a.SubscribeClock? || a.PushWaiter? || a.GiveUp? || a.CheckEvents? || a.CountOwn? || a.ExchangeOwn?
  }

  lemma FewerFree(bs: Backings)
    ensures |FreeOnes(bs)| <= |bs|
  {
    Subset(FreeOnes(bs), bs.Keys);
  }

  lemma {:induction false} Subset(a: set<nat>, b: set<nat>)
    requires a <= b
    ensures |a| <= |b|
    decreases b
  {
    if b != {} {
      var x :| x in b;
      Subset(a - {x}, b - {x});
    }
  }

  lemma Smaller(a: set<nat>, x: nat)
    requires x in a
    ensures |a - {x}| < |a|
  {}

  lemma Larger(a: set<nat>, x: nat)
    ensures |a + {x}| <= |a| + 1
  {
    if x in a { assert a + {x} == a; }
  }

  lemma SameBackings(bs: Backings, bs': Backings)
    requires bs'.Keys == bs.Keys
    ensures |bs'| == |bs|
  {
    assert |bs'| == |bs'.Keys| && |bs| == |bs.Keys|;
  }

  lemma LookMovesOn(s: State, t: nat, b: nat)
    requires Enabled(s, t, Look(b))
    ensures AcquirerLeft(Apply(s, t, Look(b)).backings, Apply(s, t, Look(b)).acquirer) < AcquirerLeft(s.backings, s.acquirer)
  {
    Smaller(s.acquirer.todo, b);
    Larger(s.acquirer.usable, b);
  }

  lemma ReadsMoveOn(s: State, t: nat, a: Action)
    requires Enabled(s, t, a) && (a.ReadClock? || a.ReadAgain?)
    ensures AcquirerLeft(Apply(s, t, a).backings, Apply(s, t, a).acquirer) < AcquirerLeft(s.backings, s.acquirer)
  {
    FewerFree(s.backings);
  }

  lemma ClaimMovesOn(s: State, t: nat, b: nat)
    requires Enabled(s, t, ClaimUsable(b))
    ensures var s' := Apply(s, t, ClaimUsable(b)); AcquirerLeft(s'.backings, s'.acquirer) < AcquirerLeft(s.backings, s.acquirer)
  {
    Smaller(s.acquirer.usable, b);
  }

  lemma ArmMovesOn(s: State, t: nat, b: nat)
    requires Enabled(s, t, LookToArm(b))
    ensures var s' := Apply(s, t, LookToArm(b)); AcquirerLeft(s'.backings, s'.acquirer) < AcquirerLeft(s.backings, s.acquirer)
  {
    Smaller(s.acquirer.todo, b);
  }

  lemma EndsMoveOn(s: State, t: nat, a: Action)
    requires Enabled(s, t, a) && (a.TakeReturned? || a.EndScan? || a.EndArming? || a.SetArmed? || a.SubscribeClock?)
    ensures AcquirerLeft(Apply(s, t, a).backings, Apply(s, t, a).acquirer) < AcquirerLeft(s.backings, s.acquirer)
  {
    if a.TakeReturned? { SameBackings(s.backings, TakenIn(s.backings)); }
  }

  lemma OwnMovesOn(s: State, t: nat, a: Action)
    requires Enabled(s, t, a) && OfAcquirer(a)
    ensures AcquirerLeft(Apply(s, t, a).backings, Apply(s, t, a).acquirer) < AcquirerLeft(s.backings, s.acquirer)
  {
    match a
    case Look(b) => LookMovesOn(s, t, b);
    case ClaimUsable(b) => ClaimMovesOn(s, t, b);
    case LookToArm(b) => ArmMovesOn(s, t, b);
    case ReadClock => ReadsMoveOn(s, t, a);
    case ReadAgain => ReadsMoveOn(s, t, a);
    case PushWaiter(_) =>
    case GiveUp =>
    case CheckEvents =>
    case CountOwn =>
    case ExchangeOwn =>
    case _ => EndsMoveOn(s, t, a);
  }

  lemma OthersLeave(s: State, t: nat, a: Action)
    requires Enabled(s, t, a) && !OfAcquirer(a) && !a.StartAcquire?
    ensures Apply(s, t, a).acquirer == s.acquirer && Apply(s, t, a).backings.Keys == s.backings.Keys
  {}

  /** Each step of its own brings an Acquire and its subscription nearer their end, whatever the other threads do: it never waits for
      them, and they leave it no more to do. */
  lemma AcquirerMovesOn(s: State, t: nat, a: Action)
    requires Enabled(s, t, a) && !a.StartAcquire?
    ensures var left, next := AcquirerLeft(s.backings, s.acquirer), AcquirerLeft(Apply(s, t, a).backings, Apply(s, t, a).acquirer);
      if OfAcquirer(a) then next < left else next == left
  {
    if OfAcquirer(a) {
      OwnMovesOn(s, t, a);
    } else {
      OthersLeave(s, t, a);
      SameBackings(s.backings, Apply(s, t, a).backings);
    }
  }
}
