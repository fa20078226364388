/** One whole run of revision assembly: a fragment is settled by a worker while the coordinator seals, collects and hands over, and
    the frame selects. So none of what RevisionRun says of selected revisions is empty. */
module RevisionWitness {
  import opened RevisionAssembly

  lemma Go(run: seq<State>, steps: seq<Step>, t: nat, a: Action) returns (run': seq<State>, steps': seq<Step>)
    requires IsRun(run, steps) && Enabled(run[|steps|], t, a)
    ensures IsRun(run', steps') && run'[|steps'|] == Apply(run[|steps|], t, a)
  {
    run', steps' := run + [Apply(run[|steps|], t, a)], steps + [Step(t, a)];
  }

  const NONE: Stats := Stats(0, 0, 0, 0, 0)
  const SLOTS: seq<Slot> := [Names(0)]
  const ONE: set<nat> := {1}

  const START: State :=
    State(map[], map[], {}, map[0 := Idle, 1 := Idle], [Nothing], 0, 0, {}, NONE, Nothing, [], map[], [])

  /** The draft's fragment, whether it was settled, and who waits for it. */
  function Only(claimed: bool, state: FragmentState, closed: bool, waiters: set<nat>): map<nat, Fragment> {
    map[0 := Fragment([], claimed, state, closed, waiters)]
  }

  function Draft(remaining: int, owed: set<Token>): map<nat, Revision> {
    map[1 := Revision(SLOTS, remaining, false, owed)]
  }

  function Threads(coordinator: Pc, worker: Pc): map<nat, Pc> {
    map[0 := coordinator, 1 := worker]
  }

  const SEALED: State := START.(latest := SLOTS, latestSequence := 1, pending := ONE, stats := Stats(1, 0, 0, 0, 0))

  lemma Seals() returns (run: seq<State>, steps: seq<Step>)
    ensures IsRun(run, steps)
    ensures run[|steps|] == SEALED.(fragments := Only(false, Pending, false, {}), revisions := Draft(2, {Of(0), OfSeal}),
      threads := Threads(Sealing(1, {0}, true, NoJob), Idle))
  {
    run, steps := [START], [];
    run, steps := Go(run, steps, 0, NewFragment(0, []));
    assert SLOTS[0] == Names(0);
    assert Distinct(SLOTS) == {0};
    assert Tokens({0}) + {OfSeal} == {Of(0), OfSeal};
    run, steps := Go(run, steps, 0, Seal(0, SLOTS));
  }

  lemma Attaches() returns (run: seq<State>, steps: seq<Step>)
    ensures IsRun(run, steps)
    ensures run[|steps|] == SEALED.(fragments := Only(false, Pending, false, ONE), revisions := Draft(1, {Of(0)}),
      threads := Threads(Idle, Idle))
  {
    run, steps := Seals();
    assert {0} - {0} == {} && {} + {1} == ONE && {Of(0), OfSeal} - {OfSeal} == {Of(0)};
    run, steps := Go(run, steps, 0, Attach(0));
    run, steps := Go(run, steps, 0, OwnCount);
    run, steps := Go(run, steps, 0, CountDown);
    run, steps := Go(run, steps, 0, EndSeal);
  }

  lemma Settles() returns (run: seq<State>, steps: seq<Step>)
    ensures IsRun(run, steps)
    ensures run[|steps|] == SEALED.(fragments := Only(true, Ready, true, {}), revisions := Draft(1, {Of(0)}),
      threads := Threads(Idle, Walking(0, ONE, NoJob)))
  {
    run, steps := Attaches();
    run, steps := Go(run, steps, 1, Claim(0, true));
    run, steps := Go(run, steps, 1, Store);
    run, steps := Go(run, steps, 1, Close);
  }

  lemma Counts() returns (run: seq<State>, steps: seq<Step>)
    ensures IsRun(run, steps)
    ensures run[|steps|] == SEALED.(fragments := Only(true, Ready, true, {}), revisions := Draft(0, {}),
      threads := Threads(Idle, Walking(0, {}, Pushing(1))))
  {
    run, steps := Settles();
    assert ONE - {1} == {} && {Of(0)} - {Of(0)} == {};
    run, steps := Go(run, steps, 1, TakeWaiter(1, true));
    run, steps := Go(run, steps, 1, Flag);
    run, steps := Go(run, steps, 1, CountDown);
  }

  lemma Completes() returns (run: seq<State>, steps: seq<Step>)
    ensures IsRun(run, steps)
    ensures run[|steps|] == SEALED.(fragments := Only(true, Ready, true, {}), revisions := Draft(0, {}), threads := Threads(Idle, Idle),
      completed := ONE, completions := [1])
  {
    run, steps := Counts();
    run, steps := Go(run, steps, 1, PushCompleted);
    run, steps := Go(run, steps, 1, EndWalk);
  }

  lemma Collects() returns (run: seq<State>, steps: seq<Step>)
    ensures IsRun(run, steps)
    ensures var s := run[|steps|];
      s.threads == Threads(TakingBack(1), Idle) && s.selected == [] && s.stats == Stats(1, 1, 0, 0, 0) && s.fates == map[1 := Published]
  {
    run, steps := Completes();
    run, steps := Go(run, steps, 0, Collect);
    run, steps := Go(run, steps, 0, TakeCompleted(1));
    assert Older({}, 1) == {};
    run, steps := Go(run, steps, 0, EndCollect);
  }

  /** A revision of one fragment is sealed, settled, completed, published and selected. */
  lemma ARevisionIsSelected() returns (run: seq<State>, steps: seq<Step>)
    ensures IsRun(run, steps) && run[|steps|].selected == [1] && run[|steps|].stats == Stats(1, 1, 0, 0, 0)
  {
    run, steps := Collects();
    run, steps := Go(run, steps, 0, TakeBack);
    run, steps := Go(run, steps, 0, Announce);
    run, steps := Go(run, steps, 1, Select(true));
  }
}
