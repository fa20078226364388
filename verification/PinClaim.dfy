/** A binding consumer's pin against the pool's claim (src/BackingPool.cpp:86-119, 393-411), on one backing. A pin counts itself
    and then reads `retired`; a claim sets `retired` and then reads the count. Any number of pins and the single acquirer
    interleave, one atomic operation an action. */
module PinClaim {

  datatype Pin =
    | Unpinned
    | Counted       // incremented bindingConsumers, about to read retired
    | Pinned        // read it clear: the pin holds
    | BackingOff    // read it set: about to take the count back and throw

  datatype Claim =
    | Unclaimed
    | Marked        // set retired, about to read bindingConsumers
    | Unmarking     // read a consumer: about to clear retired and give up
    | Claimed       // read none: the claim holds
    | Released      // the backing left the pool: retired stays set

  datatype State = State(retired: bool, consumers: int, claim: Claim, pins: map<nat, Pin>)

  datatype Action =
    | Count(t: nat)
    | Check(t: nat)
    | Uncount(t: nat)     // a pin released, or one that backs off
    | Mark
    | ReadConsumers
    | Unmark
    | Reuse               // a claim ends: back in circulation
    | Release             // a claim ends: out of the pool

  predicate Init(s: State) {
    !s.retired && s.consumers == 0 && s.claim == Unclaimed && forall t :: t in s.pins ==> s.pins[t] == Unpinned
  }

  predicate Enabled(s: State, a: Action) {
    match a
    case Count(t) => t in s.pins && s.pins[t] == Unpinned
    case Check(t) => t in s.pins && s.pins[t] == Counted
    case Uncount(t) => t in s.pins && s.pins[t] in {Pinned, BackingOff}
    case Mark => s.claim == Unclaimed
    case ReadConsumers => s.claim == Marked
    case Unmark => s.claim == Unmarking
    case Reuse => s.claim == Claimed
    case Release => s.claim == Claimed
  }

  function Apply(s: State, a: Action): State
    requires Enabled(s, a)
  {
    match a
    case Count(t) => s.(consumers := s.consumers + 1, pins := s.pins[t := Counted])
    case Check(t) => s.(pins := s.pins[t := if s.retired then BackingOff else Pinned])
    case Uncount(t) => s.(consumers := s.consumers - 1, pins := s.pins[t := Unpinned])
    case Mark => s.(retired := true, claim := Marked)
    case ReadConsumers => s.(claim := if s.consumers != 0 then Unmarking else Claimed)
    case Unmark => s.(retired := false, claim := Unclaimed)
    case Reuse => s.(retired := false, claim := Unclaimed)
    case Release => s.(claim := Released)
  }

  /** The pins that hold the count. */
  function Counting(s: State): set<nat> {
    set t | t in s.pins && s.pins[t] != Unpinned
  }

  predicate Inv(s: State) {
    && s.consumers == |Counting(s)|
    && (s.retired <==> s.claim != Unclaimed)
    && (s.claim in {Claimed, Released} ==> forall t :: t in s.pins ==> s.pins[t] != Pinned)
  }

  lemma StepInv(s: State, a: Action)
    requires Inv(s) && Enabled(s, a)
    ensures Inv(Apply(s, a))
  {
    var s' := Apply(s, a);
    match a
    case Count(t) => assert Counting(s') == Counting(s) + {t};
    case Check(t) => assert Counting(s') == Counting(s);
    case Uncount(t) =>
      assert t in Counting(s);
      assert Counting(s') == Counting(s) - {t};
    case ReadConsumers =>
      assert Counting(s') == Counting(s);
      if s.consumers == 0 {
        forall t | t in s.pins ensures s.pins[t] != Pinned { assert t !in Counting(s); }
      }
    case _ => assert Counting(s') == Counting(s);
  }

  predicate IsRun(run: seq<State>, acts: seq<Action>) {
    && |run| == |acts| + 1
    && Init(run[0])
    && forall i :: 0 <= i < |acts| ==> Enabled(run[i], acts[i]) && run[i + 1] == Apply(run[i], acts[i])
  }

  lemma {:induction false} RunInv(run: seq<State>, acts: seq<Action>, i: nat)
    requires IsRun(run, acts) && i < |run|
    ensures Inv(run[i])
  {
    if i == 0 {
      assert Counting(run[0]) == {};
    } else {
      RunInv(run, acts, i - 1);
      StepInv(run[i - 1], acts[i - 1]);
    }
  }

  /** A pin that passed its check and a claim that succeeded never hold at once. */
  lemma PinExcludesClaim(run: seq<State>, acts: seq<Action>, i: nat, t: nat)
    requires IsRun(run, acts) && i < |run| && t in run[i].pins
    ensures !(run[i].pins[t] == Pinned && run[i].claim in {Claimed, Released})
  {
    RunInv(run, acts, i);
  }

  /** The count is exactly the pins that have counted themselves, so it is never taken below zero. */
  lemma CountIsExact(run: seq<State>, acts: seq<Action>, i: nat)
    requires IsRun(run, acts) && i < |run|
    ensures run[i].consumers == |Counting(run[i])|
    ensures forall t :: t in run[i].pins && run[i].pins[t] != Unpinned ==> run[i].consumers > 0
  {
    RunInv(run, acts, i);
    forall t | t in run[i].pins && run[i].pins[t] != Unpinned ensures run[i].consumers > 0 { assert t in Counting(run[i]); }
  }

  /** A released backing is never pinned again. */
  lemma {:induction false} ReleasedStaysUnpinned(run: seq<State>, acts: seq<Action>, i: nat, j: nat)
    requires IsRun(run, acts) && i <= j < |run| && run[i].claim == Released
    ensures run[j].claim == Released
    ensures forall t :: t in run[j].pins ==> run[j].pins[t] != Pinned
    decreases j
  {
    RunInv(run, acts, j);
    if i < j { ReleasedStaysUnpinned(run, acts, i, j - 1); }
  }

  /** A claim fails only while a pin counts: with no pin counted since the mark, it succeeds. */
  lemma ClaimFailsOnlyForAPin(run: seq<State>, acts: seq<Action>, i: nat)
    requires IsRun(run, acts) && i < |acts| && acts[i] == ReadConsumers
    ensures run[i + 1].claim == Claimed <==> forall t :: t in run[i].pins ==> run[i].pins[t] == Unpinned
  {
    RunInv(run, acts, i);
    if run[i].consumers == 0 {
      forall t | t in run[i].pins ensures run[i].pins[t] == Unpinned { assert t !in Counting(run[i]); }
    } else {
      var t :| t in Counting(run[i]);
    }
  }

  // ---- what the calls so far decide ----

  /** A claim is under way or over, by the first n steps: it marked the backing, and neither gave up nor put it back since. */
  predicate IsMarked(acts: seq<Action>, n: nat)
    requires n <= |acts|
  {
    n != 0 && (acts[n - 1].Mark? || (IsMarked(acts, n - 1) && !acts[n - 1].Unmark? && !acts[n - 1].Reuse?))
  }

  /** Pin t has counted itself and not taken itself back since. */
  predicate IsCounted(acts: seq<Action>, n: nat, t: nat)
    requires n <= |acts|
  {
    n != 0 && (acts[n - 1] == Count(t) || (IsCounted(acts, n - 1, t) && acts[n - 1] != Uncount(t)))
  }

  lemma {:induction false} CallsDecide(run: seq<State>, acts: seq<Action>, n: nat, t: nat)
    requires IsRun(run, acts) && n < |run| && t in run[n].pins
    ensures run[n].retired <==> IsMarked(acts, n)
    ensures run[n].pins[t] != Unpinned <==> IsCounted(acts, n, t)
  {
    if n != 0 { CallsDecide(run, acts, n - 1, t); }
  }

  /** A pin that checks itself holds exactly when no claim is under way or over; else it backs off. */
  lemma PinHoldsUnlessClaimed(run: seq<State>, acts: seq<Action>, i: nat, t: nat)
    requires IsRun(run, acts) && i < |acts| && acts[i] == Check(t)
    ensures run[i + 1].pins[t] == if IsMarked(acts, i) then BackingOff else Pinned
  {
    CallsDecide(run, acts, i, t);
  }

  /** And it holds until it is released. */
  lemma {:induction false} PinHoldsOn(run: seq<State>, acts: seq<Action>, i: nat, j: nat, t: nat)
    requires IsRun(run, acts) && i <= j < |run| && t in run[i].pins && run[i].pins[t] == Pinned
    requires forall k :: i <= k < j ==> acts[k] != Uncount(t)
    ensures t in run[j].pins && run[j].pins[t] == Pinned
    decreases j
  {
    if i < j { PinHoldsOn(run, acts, i, j - 1, t); }
  }

  /** The count is that of the pins the calls leave counted, and zero once each has been taken back. */
  lemma CountFromCalls(run: seq<State>, acts: seq<Action>, i: nat)
    requires IsRun(run, acts) && i < |run|
    ensures run[i].consumers == |set t | t in run[i].pins && IsCounted(acts, i, t)|
    ensures run[i].consumers == 0 <==> forall t :: t in run[i].pins ==> !IsCounted(acts, i, t)
  {
    CountIsExact(run, acts, i);
    forall t | t in run[i].pins ensures run[i].pins[t] != Unpinned <==> IsCounted(acts, i, t) { CallsDecide(run, acts, i, t); }
    assert Counting(run[i]) == set t | t in run[i].pins && IsCounted(acts, i, t);
    if run[i].consumers == 0 {
      forall t | t in run[i].pins ensures !IsCounted(acts, i, t) { assert t !in Counting(run[i]); }
    } else {
      var t :| t in Counting(run[i]);
    }
  }

  /** A claim that reads the count succeeds exactly when the calls leave no pin counted. */
  lemma ClaimFromCalls(run: seq<State>, acts: seq<Action>, i: nat)
    requires IsRun(run, acts) && i < |acts| && acts[i] == ReadConsumers
    ensures run[i + 1].claim == if exists t :: t in run[i].pins && IsCounted(acts, i, t) then Unmarking else Claimed
  {
    CountFromCalls(run, acts, i);
    ClaimFailsOnlyForAPin(run, acts, i);
  }
}
