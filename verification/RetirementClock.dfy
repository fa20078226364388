/** The retirement clock (src/BackingPool.cpp:132-199): a monotonic completed point and a Treiber stack of one-shot waiters,
    used by any number of threads. Every action below is one atomic operation of the source (a load, a successful
    compare-exchange, an exchange) or a thread-local step between two of them. A compare-exchange that fails only reloads.

    A list of waiters is the set of its nodes: which end is walked first is left open, so the results hold for every order. */
module RetirementClock {

  const UINT64_MAX: nat := 0xFFFF_FFFF_FFFF_FFFF

  /** A subscription: `id` tells two subscriptions of one point apart (the node's identity). */
  datatype Waiter = Waiter(id: nat, point: nat)

  /** A wake that ran, with the completed point it was called with. */
  datatype Ran = Ran(waiter: Waiter, completed: nat)

  /** Where a thread stands in `Advance`, `Subscribe` or `RunReached`. */
  datatype Pc =
    | Outside
    | Advancing(to: nat, current: nat)    // Advance: holds a loaded `current`
    | Taking                              // RunReached: about to take the stack
    | Took(list: set<Waiter>)             // took it, about to read the point
    | Walking(list: set<Waiter>, completed: nat, kept: set<Waiter>, lowest: nat)
    | Rechecking(lowest: nat)             // pushed `kept` back, about to read the point again
    | Checked(waiter: Waiter)             // Subscribe: not reached, about to push
    | Reached(waiter: Waiter)             // Subscribe: reached, about to wake inline
    | Pushed(point: nat)                  // Subscribe: pushed, about to check once more

  datatype State = State(
    completed: nat,
    stack: set<Waiter>,
    threads: map<nat, Pc>,
    next: nat,                  // subscriptions made so far
    subscribed: set<Waiter>,    // history: every subscription
    ran: seq<Ran>,              // history: every wake, in order
    advanced: set<nat>)         // history: every point an Advance has taken past its compare-exchange

  datatype Action =
    | BeginAdvance(to: nat)
    | StepAdvance
    | Take
    | Read
    | Walk(waiter: Waiter)
    | PushBack
    | Recheck
    | BeginSubscribe(point: nat)
    | WakeInline
    | Push
    | CheckAgain

  predicate Init(s: State) {
    && s.completed == 0 && s.stack == {} && s.next == 0 && s.subscribed == {} && s.ran == [] && s.advanced == {}
    && (forall t :: t in s.threads ==> s.threads[t] == Outside)
  }

  predicate Enabled(s: State, t: nat, a: Action) {
    && t in s.threads
    && match a
       case BeginAdvance(_) => s.threads[t] == Outside
       case BeginSubscribe(_) => s.threads[t] == Outside
       case StepAdvance => s.threads[t].Advancing?
       case Take => s.threads[t] == Taking
       case Read => s.threads[t].Took?
       case Walk(w) => s.threads[t].Walking? && w in s.threads[t].list
       case PushBack => s.threads[t].Walking? && s.threads[t].list == {}
       case Recheck => s.threads[t].Rechecking?
       case WakeInline => s.threads[t].Reached?
       case Push => s.threads[t].Checked?
       case CheckAgain => s.threads[t].Pushed?
  }

  function Goto(s: State, t: nat, pc: Pc): State {
    s.(threads := s.threads[t := pc])
  }

  function Apply(s: State, t: nat, a: Action): State
    requires Enabled(s, t, a)
  {
    var pc := s.threads[t];
    match a
    case BeginAdvance(to) => Goto(s, t, Advancing(to, s.completed))
    case StepAdvance =>
      if pc.current >= pc.to then Goto(s, t, Taking).(advanced := s.advanced + {pc.to})
      else if s.completed == pc.current then Goto(s, t, Taking).(completed := pc.to, advanced := s.advanced + {pc.to})
      else Goto(s, t, Advancing(pc.to, s.completed))
    case Take => if s.stack == {} then Goto(s, t, Outside) else Goto(s, t, Took(s.stack)).(stack := {})
    case Read => Goto(s, t, Walking(pc.list, s.completed, {}, UINT64_MAX))
    case Walk(w) =>
      if w.point <= pc.completed then
        Goto(s, t, pc.(list := pc.list - {w})).(ran := s.ran + [Ran(w, pc.completed)])
      else
        Goto(s, t, Walking(pc.list - {w}, pc.completed, pc.kept + {w}, if w.point < pc.lowest then w.point else pc.lowest))
    case PushBack =>
      if pc.kept == {} then Goto(s, t, Outside)
      else Goto(s, t, Rechecking(pc.lowest)).(stack := pc.kept + s.stack)
    case Recheck => Goto(s, t, if pc.lowest > s.completed then Outside else Taking)
    case BeginSubscribe(point) =>
      var w := Waiter(s.next, point);
      Goto(s, t, if s.completed >= point then Reached(w) else Checked(w)).(next := s.next + 1, subscribed := s.subscribed + {w})
    case WakeInline => Goto(s, t, Outside).(ran := s.ran + [Ran(pc.waiter, s.completed)])
    case Push => Goto(s, t, Pushed(pc.waiter.point)).(stack := {pc.waiter} + s.stack)
    case CheckAgain => Goto(s, t, if s.completed >= pc.point then Taking else Outside)
  }

  // ---- the invariant ----

  /** The waiters a thread holds: taken off the stack, or not pushed yet. */
  function Held(pc: Pc): set<Waiter> {
    match pc
    case Took(list) => list
    case Walking(list, _, kept, _) => list + kept
    case Checked(w) => {w}
    case Reached(w) => {w}
    case _ => {}
  }

  predicate HasRun(s: State, w: Waiter) {
    exists k :: 0 <= k < |s.ran| && s.ran[k].waiter == w
  }

  predicate IsHeld(s: State, w: Waiter) {
    exists t :: t in s.threads && w in Held(s.threads[t])
  }

  /** No subscription is in two places: on the stack, held by a thread, or run. */
  predicate OnePlace(s: State) {
    && (forall i, j :: 0 <= i < j < |s.ran| ==> s.ran[i].waiter != s.ran[j].waiter)
    && (forall t, w :: t in s.threads && w in Held(s.threads[t]) ==> w !in s.stack && !HasRun(s, w))
    && (forall t, u, w :: t in s.threads && u in s.threads && w in Held(s.threads[t]) && w in Held(s.threads[u]) ==> t == u)
    && (forall w :: w in s.stack ==> !HasRun(s, w))
    && (forall t :: t in s.threads && s.threads[t].Walking? ==> s.threads[t].list !! s.threads[t].kept)
  }

  /** Only subscriptions are in those places, and each has a fresh id. */
  predicate OnlySubscribed(s: State) {
    && (forall w :: w in s.subscribed ==> w.id < s.next)
    && s.stack <= s.subscribed
    && (forall t :: t in s.threads ==> Held(s.threads[t]) <= s.subscribed)
    && (forall k :: 0 <= k < |s.ran| ==> s.ran[k].waiter in s.subscribed)
  }

  /** No subscription is lost. */
  predicate NoneLost(s: State) {
    forall w :: w in s.subscribed ==> w in s.stack || IsHeld(s, w) || HasRun(s, w)
  }

  predicate RunsInTime(s: State) {
    && (forall k :: 0 <= k < |s.ran| ==> s.ran[k].waiter.point <= s.ran[k].completed <= s.completed)
    && (forall t :: t in s.threads ==> match s.threads[t]
          case Walking(_, completed, kept, lowest) => completed <= s.completed && forall w :: w in kept ==> lowest <= w.point
          case Reached(w) => w.point <= s.completed
          case _ => true)
  }

  /** The completed point is the largest one advanced to. */
  predicate IsMaximum(s: State) {
    && (s.completed == 0 || s.completed in s.advanced)
    && (forall p :: p in s.advanced ==> p <= s.completed)
    && (forall t :: t in s.threads && s.threads[t].Advancing? ==> s.threads[t].current <= s.completed)
  }

  /** A thread here will look at the stack again for a waiter of this point, should it be reached. */
  predicate Owes(pc: Pc, point: nat) {
    pc == Taking || (pc.Pushed? && pc.point <= point) || (pc.Rechecking? && pc.lowest <= point)
  }

  predicate SomeoneOwes(s: State, point: nat) {
    exists t :: t in s.threads && Owes(s.threads[t], point)
  }

  /** A waiter left on the stack below the clock's point is owed a look by some thread. */
  predicate NoneForgotten(s: State) {
    forall w :: w in s.stack && w.point <= s.completed ==> SomeoneOwes(s, w.point)
  }

  predicate Inv(s: State) {
    OnePlace(s) && OnlySubscribed(s) && NoneLost(s) && RunsInTime(s) && IsMaximum(s) && NoneForgotten(s)
  }

  // ---- every action keeps it ----

  lemma RanGrows(s: State, s': State, r: Ran)
    requires s'.ran == s.ran + [r]
    ensures forall w :: HasRun(s', w) <==> HasRun(s, w) || w == r.waiter
  {
    forall w ensures HasRun(s', w) <==> HasRun(s, w) || w == r.waiter {
      if HasRun(s, w) {
        var k :| 0 <= k < |s.ran| && s.ran[k].waiter == w;
        assert s'.ran[k].waiter == w;
      }
      if w == r.waiter { assert s'.ran[|s.ran|].waiter == w; }
    }
  }

  lemma RanKept(s: State, s': State)
    requires s'.ran == s.ran
    ensures forall w :: HasRun(s', w) <==> HasRun(s, w)
  {}

  /** The two actions that wake take the waiter from the thread that held it. */
  lemma WakeOnePlace(s: State, t: nat, a: Action, w: Waiter)
    requires Inv(s) && Enabled(s, t, a) && w in Held(s.threads[t])
    requires (a == Walk(w) && w.point <= s.threads[t].completed) || (a == WakeInline && w == s.threads[t].waiter)
    ensures OnePlace(Apply(s, t, a))
  {
    var s' := Apply(s, t, a);
    RanGrows(s, s', s'.ran[|s.ran|]);
    assert forall u :: u in s.threads ==> Held(s'.threads[u]) <= Held(s.threads[u]);
    assert w !in Held(s'.threads[t]);
  }

  lemma FreshOnePlace(s: State, t: nat, a: Action)
    requires Inv(s) && Enabled(s, t, a) && a.BeginSubscribe?
    ensures OnePlace(Apply(s, t, a))
  {
    var s' := Apply(s, t, a);
    RanKept(s, s');
    var w := Waiter(s.next, a.point);
    assert w !in s.subscribed;
  }

  /** Waiters move between the stack and the thread. */
  lemma MoveOnePlace(s: State, t: nat, a: Action)
    requires OnePlace(s) && Enabled(s, t, a) && (a.Take? || a.PushBack? || a.Push?)
    ensures OnePlace(Apply(s, t, a))
  {
    var s' := Apply(s, t, a);
    RanKept(s, s');
    assert forall u :: u in s.threads && u != t ==> s'.threads[u] == s.threads[u];
    assert a.Take? || Held(s'.threads[t]) == {};
  }

  lemma StepOnePlace(s: State, t: nat, a: Action)
    requires Inv(s) && Enabled(s, t, a)
    ensures OnePlace(Apply(s, t, a))
  {
    var s' := Apply(s, t, a);
    if s'.ran != s.ran {
      WakeOnePlace(s, t, a, s'.ran[|s.ran|].waiter);
    } else if a.BeginSubscribe? {
      FreshOnePlace(s, t, a);
    } else if a.Take? || a.PushBack? || a.Push? {
      MoveOnePlace(s, t, a);
    } else {
      RanKept(s, s');
      assert forall u :: u in s.threads && u != t ==> s'.threads[u] == s.threads[u];
      assert Held(s'.threads[t]) == Held(s.threads[t]) && s'.stack == s.stack;
    }
  }

  lemma StepOnlySubscribed(s: State, t: nat, a: Action)
    requires Inv(s) && Enabled(s, t, a)
    ensures OnlySubscribed(Apply(s, t, a))
  {}

  lemma StepNoneLost(s: State, t: nat, a: Action)
    requires Inv(s) && Enabled(s, t, a)
    ensures NoneLost(Apply(s, t, a))
  {
    var s' := Apply(s, t, a);
    if s'.ran == s.ran { RanKept(s, s'); } else { RanGrows(s, s', s'.ran[|s.ran|]); }
    forall w | w in s'.subscribed ensures w in s'.stack || IsHeld(s', w) || HasRun(s', w) {
      if w in Held(s'.threads[t]) {
        assert IsHeld(s', w);
      } else if w in s.subscribed && IsHeld(s, w) {
        var u :| u in s.threads && w in Held(s.threads[u]);
        assert u in s'.threads;
        assert u != t ==> w in Held(s'.threads[u]);
      }
    }
  }
  lemma StepRunsInTime(s: State, t: nat, a: Action)
    requires Inv(s) && Enabled(s, t, a)
    ensures RunsInTime(Apply(s, t, a))
  {}

  lemma StepIsMaximum(s: State, t: nat, a: Action)
    requires Inv(s) && Enabled(s, t, a)
    ensures IsMaximum(Apply(s, t, a))
  {}

  lemma StepNoneForgotten(s: State, t: nat, a: Action)
    requires Inv(s) && Enabled(s, t, a)
    ensures NoneForgotten(Apply(s, t, a))
  {
    var s' := Apply(s, t, a);
    forall w | w in s'.stack && w.point <= s'.completed ensures SomeoneOwes(s', w.point) {
      if !Owes(s'.threads[t], w.point) {
        var u :| u in s.threads && Owes(s.threads[u], w.point);
        assert u != t && Owes(s'.threads[u], w.point);
      }
    }
  }

  lemma StepInv(s: State, t: nat, a: Action)
    requires Inv(s) && Enabled(s, t, a)
    ensures Inv(Apply(s, t, a))
    ensures s.completed <= Apply(s, t, a).completed
  {
    StepOnePlace(s, t, a);
    StepOnlySubscribed(s, t, a);
    StepNoneLost(s, t, a);
    StepRunsInTime(s, t, a);
    StepIsMaximum(s, t, a);
    StepNoneForgotten(s, t, a);
  }

  // ---- over every interleaving ----

  /** `run` is the states an interleaving passes through: action `acts[i]`, taken by its thread, leads from run[i] to run[i+1]. */
  predicate IsRun(run: seq<State>, acts: seq<(nat, Action)>) {
    && |run| == |acts| + 1
    && Init(run[0])
    && forall i :: 0 <= i < |acts| ==> Enabled(run[i], acts[i].0, acts[i].1) && run[i + 1] == Apply(run[i], acts[i].0, acts[i].1)
  }

  lemma {:induction false} RunInv(run: seq<State>, acts: seq<(nat, Action)>, i: nat)
    requires IsRun(run, acts) && i < |run|
    ensures Inv(run[i])
  {
    if i > 0 {
      RunInv(run, acts, i - 1);
      StepInv(run[i - 1], acts[i - 1].0, acts[i - 1].1);
    }
  }

  /** The completed point is the largest point any `Advance` has published (0 before the first), so it never decreases. */
  lemma CompletedIsTheMaximum(run: seq<State>, acts: seq<(nat, Action)>, i: nat)
    requires IsRun(run, acts) && i < |run|
    ensures run[i].completed == 0 || run[i].completed in run[i].advanced
    ensures forall p :: p in run[i].advanced ==> p <= run[i].completed
  {
    RunInv(run, acts, i);
  }

  lemma {:induction false} CompletedNeverDecreases(run: seq<State>, acts: seq<(nat, Action)>, i: nat, j: nat)
    requires IsRun(run, acts) && i <= j < |run|
    ensures run[i].completed <= run[j].completed
    decreases j
  {
    if i < j {
      CompletedNeverDecreases(run, acts, i, j - 1);
      RunInv(run, acts, j - 1);
      StepInv(run[j - 1], acts[j - 1].0, acts[j - 1].1);
    }
  }

  /** No wake runs twice, and none before the clock reached its point. */
  lemma WakesOnceAndInTime(run: seq<State>, acts: seq<(nat, Action)>, i: nat)
    requires IsRun(run, acts) && i < |run|
    ensures forall j, k :: 0 <= j < k < |run[i].ran| ==> run[i].ran[j].waiter != run[i].ran[k].waiter
    ensures forall k :: 0 <= k < |run[i].ran| ==> run[i].ran[k].waiter.point <= run[i].ran[k].completed <= run[i].completed
    ensures forall k :: 0 <= k < |run[i].ran| ==> run[i].ran[k].waiter in run[i].subscribed
  {
    RunInv(run, acts, i);
  }

  /** When no thread is inside the clock, a subscription has run exactly when its point is reached, and every other one is
      still on the stack: none was lost to a race between `Advance` and `Subscribe`. */
  lemma QuiescentClockOwesNothing(run: seq<State>, acts: seq<(nat, Action)>, i: nat)
    requires IsRun(run, acts) && i < |run|
    requires forall t :: t in run[i].threads ==> run[i].threads[t] == Outside
    ensures forall w :: w in run[i].subscribed ==> (HasRun(run[i], w) <==> w.point <= run[i].completed)
    ensures forall w :: w in run[i].subscribed ==> (w in run[i].stack <==> w.point > run[i].completed)
  {
    RunInv(run, acts, i);
    var s := run[i];
    forall w | w in s.stack ensures w.point > s.completed {
      assert w.point <= s.completed ==> SomeoneOwes(s, w.point);
    }
  }

  // ---- told by the calls ----

  /** Call k of the run is an Advance that is still at its compare-exchange in state j. */
  predicate StillAdvancing(run: seq<State>, acts: seq<(nat, Action)>, k: nat, j: nat)
    requires IsRun(run, acts) && k < |acts| && acts[k].1.BeginAdvance?
  {
    k < j < |run| && acts[k].0 in run[j].threads
    && forall m :: k < m <= j ==> acts[k].0 in run[m].threads && run[m].threads[acts[k].0].Advancing? && run[m].threads[acts[k].0].to == acts[k].1.to
  }

  /** Call k is an Advance that by state j is past it. */
  predicate Advanced(run: seq<State>, acts: seq<(nat, Action)>, k: nat, j: nat)
    requires IsRun(run, acts) && j < |run|
  {
    k < j && acts[k].1.BeginAdvance? && !StillAdvancing(run, acts, k, j)
  }

  lemma StepLeavesOthers(s: State, t: nat, a: Action, u: nat)
    requires Enabled(s, t, a) && u in s.threads && u != t
    ensures u in Apply(s, t, a).threads && Apply(s, t, a).threads[u] == s.threads[u]
  {}

  /** An Advance leaves its compare-exchange with the point reached; and it does leave, when the point is the one it loaded. */
  lemma StepAdvances(s: State, t: nat)
    requires Enabled(s, t, StepAdvance) && IsMaximum(s)
    ensures var s', to := Apply(s, t, StepAdvance), s.threads[t].to;
      && s'.completed in {s.completed, to} && s.completed <= s'.completed
      && (if s'.threads[t].Advancing? then s'.threads[t].to == to && s'.completed == s.completed && s.completed != s.threads[t].current
          else to <= s'.completed)
  {}

  lemma OthersKeepPoint(s: State, t: nat, a: Action)
    requires Enabled(s, t, a) && a != StepAdvance
    ensures Apply(s, t, a).completed == s.completed
  {}

  /** The step by which it gets past it. */
  lemma JustAdvanced(run: seq<State>, acts: seq<(nat, Action)>, k: nat, i: nat)
    requires IsRun(run, acts) && i < |acts| && k < |acts| && acts[k].1.BeginAdvance?
    requires StillAdvancing(run, acts, k, i) && !StillAdvancing(run, acts, k, i + 1)
    ensures acts[k].1.to <= run[i + 1].completed
  {
    var t := acts[k].0;
    RunInv(run, acts, i);
    if acts[i].0 == t { StepAdvances(run[i], t); } else { StepLeavesOthers(run[i], acts[i].0, acts[i].1, t); }
  }

  /** Once an Advance is past its compare-exchange, the completed point is from then on at least what it was given. */
  lemma {:induction false} AdvanceIsReached(run: seq<State>, acts: seq<(nat, Action)>, k: nat, j: nat)
    requires IsRun(run, acts) && j < |run| && Advanced(run, acts, k, j)
    ensures acts[k].1.to <= run[j].completed
    decreases j
  {
    if k + 1 < j && Advanced(run, acts, k, j - 1) {
      AdvanceIsReached(run, acts, k, j - 1);
      CompletedNeverDecreases(run, acts, j - 1, j);
    } else if k + 1 < j {
      JustAdvanced(run, acts, k, j - 1);
    }
  }

  /** Every Advancing thread is in a call that began. */
  lemma {:induction false} AdvancingBegan(run: seq<State>, acts: seq<(nat, Action)>, j: nat, t: nat) returns (k: nat)
    requires IsRun(run, acts) && j < |run| && t in run[j].threads && run[j].threads[t].Advancing?
    ensures k < j && acts[k] == (t, BeginAdvance(run[j].threads[t].to)) && StillAdvancing(run, acts, k, j)
  {
    assert j > 0;
    if acts[j - 1].0 == t && acts[j - 1].1.BeginAdvance? {
      k := j - 1;
    } else {
      if acts[j - 1].0 != t { StepLeavesOthers(run[j - 1], acts[j - 1].0, acts[j - 1].1, t); }
      k := AdvancingBegan(run, acts, j - 1, t);
    }
  }

  /** The completed point is 0, or what some Advance past its compare-exchange was given. */
  lemma {:induction false} PointWasGiven(run: seq<State>, acts: seq<(nat, Action)>, j: nat) returns (k: nat)
    requires IsRun(run, acts) && j < |run|
    ensures run[j].completed == 0 || (Advanced(run, acts, k, j) && acts[k].1.to == run[j].completed)
  {
    k := 0;
    if j > 0 && run[j].completed != 0 {
      var (t, a) := acts[j - 1];
      if run[j].completed == run[j - 1].completed {
        k := PointWasGiven(run, acts, j - 1);
      } else {
        if a != StepAdvance { OthersKeepPoint(run[j - 1], t, a); }
        RunInv(run, acts, j - 1);
        StepAdvances(run[j - 1], t);
        k := AdvancingBegan(run, acts, j - 1, t);
      }
    }
  }

  /** The waiter call k of the run subscribes. */
  function Subscribes(run: seq<State>, acts: seq<(nat, Action)>, k: nat): Waiter
    requires IsRun(run, acts) && k < |acts| && acts[k].1.BeginSubscribe?
  {
    Waiter(run[k].next, acts[k].1.point)
  }

  lemma {:induction false} SubscriptionsStay(run: seq<State>, acts: seq<(nat, Action)>, i: nat, j: nat)
    requires IsRun(run, acts) && i <= j < |run|
    ensures run[i].subscribed <= run[j].subscribed && run[i].next <= run[j].next
    decreases j
  {
    if i < j { SubscriptionsStay(run, acts, i, j - 1); }
  }

  lemma SubscribesReached(run: seq<State>, acts: seq<(nat, Action)>, k: nat)
    requires IsRun(run, acts) && k < |acts| && acts[k].1.BeginSubscribe? && acts[k].1.point <= run[k].completed
    ensures acts[k].0 in run[k + 1].threads && run[k + 1].threads[acts[k].0] == Reached(Subscribes(run, acts, k))
  {}

  lemma StepFromReached(s: State, u: nat, a: Action, t: nat, w: Waiter)
    requires Enabled(s, u, a) && t in s.threads && s.threads[t] == Reached(w)
    ensures t in Apply(s, u, a).threads
    ensures if u == t then a == WakeInline && HasRun(Apply(s, u, a), w) else Apply(s, u, a).threads[t] == Reached(w)
  {
    if u == t { assert Apply(s, u, a).ran[|s.ran|].waiter == w; }
  }

  /** A point already reached has its wake run by the Subscribe itself. */
  lemma {:induction false} ReachedRunsInline(run: seq<State>, acts: seq<(nat, Action)>, k: nat, j: nat) returns (m: nat)
    requires IsRun(run, acts) && k < j < |run| && acts[k].1.BeginSubscribe? && acts[k].1.point <= run[k].completed
    requires acts[k].0 in run[j].threads && run[j].threads[acts[k].0] != Reached(Subscribes(run, acts, k))
    ensures k < m < j && acts[m] == (acts[k].0, WakeInline) && HasRun(run[m + 1], Subscribes(run, acts, k))
    decreases j
  {
    var t, w := acts[k].0, Subscribes(run, acts, k);
    SubscribesReached(run, acts, k);
    assert Enabled(run[j - 1], acts[j - 1].0, acts[j - 1].1);
    if t in run[j - 1].threads && run[j - 1].threads[t] == Reached(w) && k + 1 < j {
      m := j - 1;
      StepFromReached(run[m], acts[m].0, acts[m].1, t, w);
    } else {
      assert t in run[j - 1].threads;
      m := ReachedRunsInline(run, acts, k, j - 1);
    }
  }

  /** When no thread is inside the clock: of every Subscribe called, the wake has run if and only if its point is no later than what some
      Advance called was given (or is 0). Two calls never share a waiter. */
  lemma EveryCallIsServed(run: seq<State>, acts: seq<(nat, Action)>, k: nat, j: nat)
    requires IsRun(run, acts) && k < j < |run| && acts[k].1.BeginSubscribe?
    requires forall t :: t in run[j].threads ==> run[j].threads[t] == Outside
    ensures var w := Subscribes(run, acts, k);
      HasRun(run[j], w) <==> w.point == 0 || exists m :: 0 <= m < j && acts[m].1.BeginAdvance? && w.point <= acts[m].1.to
    ensures forall m :: 0 <= m < j && m != k && acts[m].1.BeginSubscribe? ==> Subscribes(run, acts, m) != Subscribes(run, acts, k)
  {
    var w := Subscribes(run, acts, k);
    SubscriptionsStay(run, acts, k + 1, j);
    assert w in run[k + 1].subscribed;
    QuiescentClockOwesNothing(run, acts, j);
    var p := PointWasGiven(run, acts, j);
    forall m | 0 <= m < j && acts[m].1.BeginAdvance? ensures acts[m].1.to <= run[j].completed {
      assert acts[m].0 in run[j].threads ==> run[j].threads[acts[m].0] == Outside;
      AdvanceIsReached(run, acts, m, j);
    }
    forall m | 0 <= m < j && m != k && acts[m].1.BeginSubscribe? ensures Subscribes(run, acts, m) != w {
      if m < k { SubscriptionsStay(run, acts, m + 1, k); } else { SubscriptionsStay(run, acts, k + 1, m); }
    }
  }

  // ---- no call waits for another ----

  /** Thread t's own steps lead from s to e. */
  predicate Alone(s: State, t: nat, acts: seq<Action>, e: State)
    decreases |acts|
  {
    if acts == [] then e == s else Enabled(s, t, acts[0]) && Alone(Apply(s, t, acts[0]), t, acts[1..], e)
  }

  /** A walk with the clock's own point keeps only waiters past it. */
  predicate FreshWalk(pc: Pc, completed: nat)
    requires pc.Walking?
  {
    pc.completed == completed && (pc.lowest > completed || (pc.kept == {} && pc.lowest == UINT64_MAX))
  }

  /** How far the thread is from the end of its call, by itself. */
  function Distance(pc: Pc, completed: nat): nat {
    match pc
    case Outside => 0
    case Reached(_) => 1
    case Rechecking(lowest) => if lowest > completed then 1 else 5
    case Walking(_, _, _, _) => if FreshWalk(pc, completed) then 2 else 6
    case Took(_) => 3
    case Taking => 4
    case Pushed(_) => 5
    case Checked(_) => 6
    case Advancing(to, current) => if current >= to || current == completed then 5 else 6
  }

  function ToWalk(pc: Pc): nat {
    if pc.Walking? then |pc.list| else 0
  }

  predicate In64Bits(s: State, t: nat) {
    t in s.threads && (forall w :: w in s.stack ==> w.point <= UINT64_MAX) && forall w :: w in Held(s.threads[t]) ==> w.point <= UINT64_MAX
  }

  predicate Nearer(s: State, s': State, t: nat) {
    && t in s.threads && t in s'.threads
    && var (d, d') := (Distance(s.threads[t], s.completed), Distance(s'.threads[t], s'.completed));
       d' < d || (d' == d && ToWalk(s'.threads[t]) < ToWalk(s.threads[t]))
  }

  lemma WalkNearer(s: State, t: nat, w: Waiter)
    requires Enabled(s, t, Walk(w)) && In64Bits(s, t)
    ensures In64Bits(Apply(s, t, Walk(w)), t) && Nearer(s, Apply(s, t, Walk(w)), t)
  {
    assert |s.threads[t].list - {w}| < |s.threads[t].list|;
  }

  function NextOwn(pc: Pc): Action
    requires pc != Outside && !(pc.Walking? && pc.list != {})
  {
    match pc
    case Advancing(_, _) => StepAdvance
    case Taking => Take
    case Took(_) => Read
    case Walking(_, _, _, _) => PushBack
    case Rechecking(_) => Recheck
    case Checked(_) => Push
    case Reached(_) => WakeInline
    case Pushed(_) => CheckAgain
  }

  lemma OtherNearer(s: State, t: nat)
    requires t in s.threads && s.threads[t] != Outside && !(s.threads[t].Walking? && s.threads[t].list != {}) && In64Bits(s, t)
    ensures var a := NextOwn(s.threads[t]); Enabled(s, t, a) && In64Bits(Apply(s, t, a), t) && Nearer(s, Apply(s, t, a), t)
  {}

  lemma OneStepNearer(s: State, t: nat) returns (a: Action)
    requires t in s.threads && s.threads[t] != Outside && In64Bits(s, t)
    ensures Enabled(s, t, a) && In64Bits(Apply(s, t, a), t) && Nearer(s, Apply(s, t, a), t)
  {
    if s.threads[t].Walking? && s.threads[t].list != {} {
      var w :| w in s.threads[t].list;
      a := Walk(w);
      WalkNearer(s, t, w);
    } else {
      a := NextOwn(s.threads[t]);
      OtherNearer(s, t);
    }
  }

  /** From any state, a thread inside the clock gets out by its own steps: no call waits for another thread. */
  lemma {:induction false} FinishesAlone(s: State, t: nat) returns (acts: seq<Action>, e: State)
    requires t in s.threads && In64Bits(s, t)
    ensures Alone(s, t, acts, e) && t in e.threads && e.threads[t] == Outside
    decreases Distance(s.threads[t], s.completed), ToWalk(s.threads[t])
  {
    acts, e := [], s;
    if s.threads[t] != Outside {
      var a := OneStepNearer(s, t);
      var more;
      more, e := FinishesAlone(Apply(s, t, a), t);
      acts := [a] + more;
      assert acts[1..] == more;
    }
  }
}
