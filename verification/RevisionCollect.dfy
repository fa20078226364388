/** What a Collect decides: the newest complete revision wins, and what it passes over is older than that one or than the last. */
module RevisionCollect {
  import opened RevisionAssembly
  import opened RevisionTokens
  import opened RevisionCoordinator
  import opened RevisionRun

  // ---- over every run ----

  predicate PassedOver(fate: Fate) {
    fate == Superseded || fate == Abandoned
  }

  /** Every revision passed over is older than the last published, or than the newest one Collect holds. */
  predicate Overtaken(newest: set<nat>, fates: map<nat, Fate>, published: nat) {
    forall r :: r in fates && PassedOver(fates[r]) ==> r < published || exists n :: n in newest && r < n
  }

  lemma TakeOvertaken(s: State, r: nat)
    requires CoordinatorInv(s) && s.threads[0].Collecting? && r in s.revisions
    requires Overtaken(NewestOf(s.threads[0]), s.fates, s.publishedSequence)
    ensures var e := TakeOne(s, s.threads[0], r); 0 in e.threads && Overtaken(NewestOf(e.threads[0]), e.fates, e.publishedSequence)
  {
    var pc, e := s.threads[0], TakeOne(s, s.threads[0], r);
    TakeFrame(s, pc, r);
    if pc.newest.Names? { assert pc.newest.fragment in NewestOf(pc); }
    if e.threads[0].newest.Names? { assert e.threads[0].newest.fragment in NewestOf(e.threads[0]); }
  }

  lemma PublishOvertaken(s: State, r: nat)
    requires CoordinatorInv(s) && s.threads[0] == Collecting({}, Names(r))
    requires Overtaken({r}, s.fates, s.publishedSequence)
    ensures var e := PublishNewest(s, r); Overtaken({}, e.fates, e.publishedSequence)
  {
    NewestIsGood(s, r);
    FatesAfter(s.fates, Older(s.pending, r), r);
  }

  /** The coordinator's and the frame's steps that decide nothing. */
  lemma IdlyOvertaken(s: State, t: nat, a: Action)
    requires 0 in s.threads && Enabled(s, t, a) && !Settles(a) && !a.TakeCompleted? && !a.EndCollect?
    ensures var e := Apply(s, t, a);
      && 0 in e.threads && NewestOf(e.threads[0]) == NewestOf(s.threads[0])
      && e.fates == s.fates && e.publishedSequence == s.publishedSequence
  {}

  lemma OtherOvertaken(s: State, t: nat, a: Action)
    requires 0 in s.threads && Enabled(s, t, a) && Local(t, s.threads[t]) && !a.TakeCompleted? && !a.EndCollect?
    ensures var e := Apply(s, t, a);
      && 0 in e.threads && NewestOf(e.threads[0]) == NewestOf(s.threads[0])
      && e.fates == s.fates && e.publishedSequence == s.publishedSequence
  {
    if Settles(a) { SettlesSame(s, t, a); } else { IdlyOvertaken(s, t, a); }
  }

  lemma StepOvertaken(s: State, t: nat, a: Action)
    requires Inv(s) && Enabled(s, t, a) && Overtaken(NewestOf(s.threads[0]), s.fates, s.publishedSequence)
    ensures var e := Apply(s, t, a); 0 in e.threads && Overtaken(NewestOf(e.threads[0]), e.fates, e.publishedSequence)
  {
    if a.TakeCompleted? {
      TakeOvertaken(s, a.revision);
    } else if a.EndCollect? {
      var pc := s.threads[0];
      if pc.newest.Names? {
        assert NewestOf(pc) == {pc.newest.fragment};
        PublishOvertaken(s, pc.newest.fragment);
      } else {
        assert NewestOf(pc) == {};
      }
    } else {
      OtherOvertaken(s, t, a);
    }
  }

  /** In every run, a revision that was superseded or abandoned is older than the last published one, or than the newest complete one the
      running Collect has found. */
  lemma {:induction false} PassedOverIsOlder(run: seq<State>, steps: seq<Step>, i: nat)
    requires IsRun(run, steps) && i < |run|
    ensures 0 in run[i].threads && Overtaken(NewestOf(run[i].threads[0]), run[i].fates, run[i].publishedSequence)
  {
    if i > 0 {
      PassedOverIsOlder(run, steps, i - 1);
      RunInv(run, steps, i - 1);
      StepOvertaken(run[i - 1], steps[i - 1].thread, steps[i - 1].action);
    }
  }

  // ---- one Collect ----

  /** The complete revisions a Collect that begins at s will find. */
  function Complete(s: State): set<nat>
    requires forall r :: r in s.completed ==> r in s.revisions
  {
    set r | r in s.completed && r in s.pending && !s.revisions[r].failed
  }

  ghost predicate Begins(s: State) {
    forall r :: r in s.completed ==> r in s.revisions && s.revisions[r].owed == {}
  }

  /** What was completed when Collect began, owes nothing more and fails no more. */
  ghost predicate Finished(s: State, e: State) {
    forall r :: r in s.completed ==>
      && r in s.revisions && r in e.revisions && e.revisions[r].owed == {}
      && e.revisions[r].failed == s.revisions[r].failed
  }

  /** The newest found so far is the greatest of those looked at. */
  predicate NewestSoFar(found: set<nat>, newest: Slot) {
    if newest.Nothing? then found == {} else newest.fragment in found && forall r :: r in found ==> r <= newest.fragment
  }

  /** The fates once `done` is dealt with and `newest` kept aside. */
  ghost predicate FatesBy(s: State, done: set<nat>, newest: Slot, fates: map<nat, Fate>)
    requires done <= s.completed && Begins(s)
  {
    && (forall r :: r in fates <==> r in s.fates || (r in done && r in s.pending && newest != Names(r)))
    && (forall r :: r in s.fates ==> fates[r] == s.fates[r])
    && (forall r :: r in done && r in s.pending && r !in s.fates && newest != Names(r) ==>
          fates[r] == if s.revisions[r].failed then FailedRevision else Superseded)
  }

  /** A Collect that began at s is at e. */
  ghost predicate Midway(s: State, e: State) {
    && Begins(s) && 0 in e.threads && e.threads[0].Collecting? && e.threads[0].list <= s.completed && Finished(s, e)
    && (forall r :: r in s.pending ==> r !in s.fates && s.publishedSequence < r)
    && var list, newest := e.threads[0].list, e.threads[0].newest; var done := s.completed - list;
       && e.publishedSequence == s.publishedSequence && e.pending == s.pending - done
       && NewestSoFar(Complete(s) * done, newest) && FatesBy(s, done, newest, e.fates)
  }

  lemma CompletedBegins(s: State)
    requires Completions(s.threads, s.revisions, s.completions) && Stack({}, s.completed, s.completions, s.pending)
    ensures Begins(s)
  {}

  lemma PendingAhead(s: State)
    requires Sequenced(s) && Fated({}, s.fates, s.pending, s.revisions, s.publishedSequence)
    ensures forall r :: r in s.pending ==> r !in s.fates && s.publishedSequence < r
  {}

  lemma BeginsMidway(s: State, e: State)
    requires 0 in s.threads && Begins(s) && forall r :: r in s.pending ==> r !in s.fates && s.publishedSequence < r
    requires e == s.(threads := s.threads[0 := Collecting(s.completed, Nothing)], completed := {})
    ensures Midway(s, e)
  {
    assert s.completed - s.completed == {};
  }

  /** While the coordinator collects, another's step leaves its list, the pending ones and the fates. */
  lemma OthersStep(e: State, t: nat, a: Action)
    requires 0 in e.threads && e.threads[0].Collecting? && Enabled(e, t, a) && !a.TakeCompleted? && !a.EndCollect?
    ensures var e' := Apply(e, t, a);
      && 0 in e'.threads && e'.threads[0] == e.threads[0]
      && e'.pending == e.pending && e'.fates == e.fates && e'.publishedSequence == e.publishedSequence
  {}

  lemma OthersMidway(s: State, e: State, t: nat, a: Action)
    requires Midway(s, e) && Enabled(e, t, a) && !a.TakeCompleted? && !a.EndCollect?
    requires a.Flag? || a.CountDown? ==> e.revisions[JobOf(e.threads[t]).revision].owed != {}
    ensures Midway(s, Apply(e, t, a))
  {
    OthersStep(e, t, a);
    FinishedStays(s, e, t, a);
  }

  lemma FinishedStays(s: State, e: State, t: nat, a: Action)
    requires Finished(s, e) && Enabled(e, t, a) && 0 in e.threads && e.threads[0].Collecting? && !a.TakeCompleted? && !a.EndCollect?
    requires a.Flag? || a.CountDown? ==> e.revisions[JobOf(e.threads[t]).revision].owed != {}
    ensures Finished(s, Apply(e, t, a))
  {}

  /** The next newest: a complete revision newer than the one so far. */
  function Newer(s: State, newest: Slot, r: nat): Slot
    requires r in s.revisions
  {
    if r in s.pending && !s.revisions[r].failed && (newest.Nothing? || newest.fragment < r) then Names(r) else newest
  }

  lemma NewestGoesOn(s: State, done: set<nat>, newest: Slot, r: nat)
    requires Begins(s) && r in s.completed && r !in done && done <= s.completed && NewestSoFar(Complete(s) * done, newest)
    ensures NewestSoFar(Complete(s) * (done + {r}), Newer(s, newest, r))
  {
    assert Complete(s) * (done + {r}) == Complete(s) * done + if r in s.pending && !s.revisions[r].failed then {r} else {};
  }

  /** The fates after one revision more. */
  lemma FatesGoOn(s: State, done: set<nat>, newest: Slot, fates: map<nat, Fate>, fates': map<nat, Fate>, r: nat)
    requires Begins(s) && r in s.completed && r !in done && done <= s.completed && NewestSoFar(Complete(s) * done, newest)
    requires FatesBy(s, done, newest, fates) && forall q :: q in s.pending ==> q !in s.fates
    requires fates' == NextFates(s, newest, fates, r)
    ensures FatesBy(s, done + {r}, Newer(s, newest, r), fates')
  {
    if newest.Names? { assert newest.fragment in Complete(s) * done; }
  }

  function NextFates(s: State, newest: Slot, fates: map<nat, Fate>, r: nat): map<nat, Fate>
    requires r in s.revisions
  {
    if r !in s.pending then fates
    else if s.revisions[r].failed then fates[r := FailedRevision]
    else if newest.Nothing? then fates
    else fates[(if newest.fragment < r then newest.fragment else r) := Superseded]
  }

  /** What Collect's loop makes of one revision. */
  lemma TakesNext(s: State, e: State, r: nat)
    requires 0 in e.threads && e.threads[0].Collecting? && r in e.revisions && r in s.revisions
    requires (r in e.pending <==> r in s.pending) && e.revisions[r].failed == s.revisions[r].failed
    requires r in s.pending ==> e.publishedSequence < r && e.threads[0].newest != Names(r)
    ensures var e' := TakeOne(e, e.threads[0], r);
      && 0 in e'.threads && e'.threads[0] == Collecting(e.threads[0].list - {r}, Newer(s, e.threads[0].newest, r))
      && e'.fates == NextFates(s, e.threads[0].newest, e.fates, r)
      && e'.revisions == e.revisions && e'.publishedSequence == e.publishedSequence && e'.pending == e.pending - {r}
  {}

  lemma TakeMidway(s: State, e: State, r: nat)
    requires Midway(s, e) && r in e.threads[0].list && r in e.revisions
    ensures Midway(s, TakeOne(e, e.threads[0], r))
  {
    var list, newest := e.threads[0].list, e.threads[0].newest;
    var done := s.completed - list;
    if newest.Names? { assert newest.fragment in Complete(s) * done; }
    TakesNext(s, e, r);
    NewestGoesOn(s, done, newest, r);
    FatesGoOn(s, done, newest, e.fates, TakeOne(e, e.threads[0], r).fates, r);
    assert s.completed - (list - {r}) == done + {r};
  }

  /** What a Collect that began at s made of it by the time it ended: the greatest complete revision it took is published, and only then
      are older pending ones abandoned. */
  ghost predicate Collected(s: State, e: State)
    requires Begins(s)
  {
    && 0 in e.threads
    && (if Complete(s) == {} then e.publishedSequence == s.publishedSequence && e.threads[0] == Idle
        else e.publishedSequence in Complete(s) && e.threads[0] == TakingBack(e.publishedSequence)
             && forall r :: r in Complete(s) ==> r <= e.publishedSequence)
    && (forall r :: r in e.pending <==> r in s.pending && r !in s.completed && e.publishedSequence < r)
    && (forall r :: r in e.fates <==> r in s.fates || (r in s.pending && r !in e.pending))
    && (forall r :: r in e.fates ==> e.fates[r] == FateFrom(s, e.publishedSequence, r))
  }

  function FateFrom(s: State, published: nat, r: nat): Fate
    requires Begins(s)
  {
    if r in s.fates then s.fates[r]
    else if r !in s.completed then Abandoned
    else if s.revisions[r].failed then FailedRevision
    else if r == published then Published
    else Superseded
  }

  lemma EndsEmpty(s: State, e: State)
    requires Midway(s, e) && e.threads[0] == Collecting({}, Nothing)
    ensures Collected(s, Goto(e, 0, Idle))
  {
    assert s.completed - {} == s.completed && Complete(s) * s.completed == Complete(s);
  }

  lemma PublishedFates(s: State, n: nat, fates: map<nat, Fate>, older: set<nat>, after: map<nat, Fate>)
    requires Begins(s) && FatesBy(s, s.completed, Names(n), fates) && n in Complete(s)
    requires (forall r :: r in s.pending ==> r !in s.fates)
    requires forall r :: r in older <==> r in s.pending && r !in s.completed && r < n
    requires after.Keys == fates.Keys + older + {n}
    requires forall q :: q in after ==> after[q] == if q == n then Published else if q in older then Abandoned else fates[q]
    ensures forall r :: r in after <==> r in s.fates || (r in s.pending && !(r !in s.completed && n < r))
    ensures forall r :: r in after ==> after[r] == FateFrom(s, n, r)
  {
    forall r ensures r in after <==> r in s.fates || (r in s.pending && !(r !in s.completed && n < r)) {
      assert r in after <==> r in fates || r in older || r == n;
    }
  }

  lemma EndsPublished(s: State, e: State, n: nat)
    requires Midway(s, e) && e.threads[0] == Collecting({}, Names(n))
    ensures Collected(s, PublishNewest(e, n))
  {
    assert s.completed - {} == s.completed && Complete(s) * s.completed == Complete(s);
    var older := Older(e.pending, n);
    PublishFrame(e, n);
    FatesAfter(e.fates, older, n);
    AbandonsOlder(s.pending, e.pending, s.completed, n);
    PublishedFates(s, n, e.fates, older, PublishNewest(e, n).fates);
  }

  /** What stays pending once n is published. */
  lemma AbandonsOlder(pending: set<nat>, left: set<nat>, completed: set<nat>, n: nat)
    requires left == pending - completed && n in completed
    ensures forall r :: r in left - Older(left, n) <==> r in pending && r !in completed && n < r
  {}

  lemma EndsCollected(s: State, e: State)
    requires Midway(s, e) && e.threads[0].list == {}
    ensures Collected(s, Apply(e, 0, EndCollect))
  {
    if e.threads[0].newest.Names? { EndsPublished(s, e, e.threads[0].newest.fragment); } else { EndsEmpty(s, e); }
  }

  /** Collecting from step i to state j. */
  predicate Collects(run: seq<State>, steps: seq<Step>, i: nat, j: nat)
    requires IsRun(run, steps)
  {
    && i < j < |run| && steps[i].action.Collect?
    && forall k :: i < k <= j ==> 0 in run[k].threads && run[k].threads[0].Collecting?
  }

  lemma FirstMidway(s: State, t: nat)
    requires Inv(s) && Enabled(s, t, Collect)
    ensures Midway(s, Apply(s, t, Collect))
  {
    CompletedBegins(s);
    assert NewestOf(s.threads[0]) == {};
    PendingAhead(s);
    BeginsMidway(s, Apply(s, t, Collect));
  }

  lemma StepMidway(s: State, e: State, t: nat, a: Action)
    requires Midway(s, e) && Inv(e) && Enabled(e, t, a)
    requires var e' := Apply(e, t, a); 0 in e'.threads && e'.threads[0].Collecting?
    ensures Midway(s, Apply(e, t, a))
  {
    if a.TakeCompleted? {
      TakeMidway(s, e, a.revision);
    } else {
      if a.Flag? || a.CountDown? { JobOwed(e, t); }
      OthersMidway(s, e, t, a);
    }
  }

  lemma RunFirst(run: seq<State>, steps: seq<Step>, i: nat)
    requires IsRun(run, steps) && i < |steps| && steps[i].action.Collect?
    ensures Midway(run[i], run[i + 1])
  {
    RunInv(run, steps, i);
    FirstMidway(run[i], steps[i].thread);
  }

  lemma RunNext(run: seq<State>, steps: seq<Step>, s: State, j: nat)
    requires IsRun(run, steps) && j < |steps| && Midway(s, run[j]) && 0 in run[j + 1].threads && run[j + 1].threads[0].Collecting?
    ensures Midway(s, run[j + 1])
  {
    RunInv(run, steps, j);
    StepMidway(s, run[j], steps[j].thread, steps[j].action);
  }

  lemma {:induction false} CollectingMidway(run: seq<State>, steps: seq<Step>, i: nat, j: nat)
    requires IsRun(run, steps) && Collects(run, steps, i, j)
    ensures Midway(run[i], run[j])
    decreases j
  {
    if j == i + 1 {
      RunFirst(run, steps, i);
    } else {
      CollectingMidway(run, steps, i, j - 1);
      RunNext(run, steps, run[i], j - 1);
    }
  }

  /** Whatever the settlers and the frame do meanwhile, a Collect publishes the greatest of the complete, unfailed, pending revisions that
      were on the stack when it took it, or nothing when there are none; the fates of the others are what that makes them. */
  lemma NewestWins(run: seq<State>, steps: seq<Step>, i: nat, j: nat)
    requires IsRun(run, steps) && Collects(run, steps, i, j) && j < |steps| && steps[j].action.EndCollect?
    ensures Begins(run[i]) && Collected(run[i], run[j + 1])
  {
    CollectingMidway(run, steps, i, j);
    EndsCollected(run[i], run[j]);
  }

  // ---- the counters ----

  function Counted(fates: map<nat, Fate>, fate: Fate): set<nat> {
    set r | r in fates && fates[r] == fate
  }

  /** Each counter counts the revisions of its fate. */
  predicate Books(stats: Stats, fates: map<nat, Fate>) {
    && stats.published == |Counted(fates, Published)| && stats.failed == |Counted(fates, FailedRevision)|
    && stats.superseded == |Counted(fates, Superseded)| && stats.abandoned == |Counted(fates, Abandoned)|
  }

  lemma OneMore(fates: map<nat, Fate>, r: nat, fate: Fate, f: Fate)
    requires r !in fates
    ensures |Counted(fates[r := fate], f)| == |Counted(fates, f)| + if f == fate then 1 else 0
  {
    assert Counted(fates[r := fate], f) == Counted(fates, f) + if f == fate then {r} else {};
  }

  lemma OneMoreFate(stats: Stats, fates: map<nat, Fate>, r: nat, fate: Fate)
    requires r !in fates && Books(stats, fates)
    ensures Books(More(stats, fate, 1), fates[r := fate])
  {
    OneMore(fates, r, fate, Published);
    OneMore(fates, r, fate, FailedRevision);
    OneMore(fates, r, fate, Superseded);
    OneMore(fates, r, fate, Abandoned);
  }

  function More(stats: Stats, fate: Fate, n: nat): Stats {
    match fate
    case Published => stats.(published := stats.published + n)
    case FailedRevision => stats.(failed := stats.failed + n)
    case Superseded => stats.(superseded := stats.superseded + n)
    case Abandoned => stats.(abandoned := stats.abandoned + n)
  }

  lemma ManyMore(fates: map<nat, Fate>, older: set<nat>, f: Fate)
    requires forall r :: r in older ==> r !in fates
    ensures |Counted(fates + AllAbandoned(older), f)| == |Counted(fates, f)| + if f == Abandoned then |older| else 0
  {
    assert Counted(fates + AllAbandoned(older), f) == Counted(fates, f) + if f == Abandoned then older else {};
  }

  lemma ManyAbandoned(stats: Stats, fates: map<nat, Fate>, older: set<nat>)
    requires Books(stats, fates) && forall r :: r in older ==> r !in fates
    ensures Books(More(stats, Abandoned, |older|), fates + AllAbandoned(older))
  {
    ManyMore(fates, older, Published);
    ManyMore(fates, older, FailedRevision);
    ManyMore(fates, older, Superseded);
    ManyMore(fates, older, Abandoned);
  }

  lemma TakeBooks(s: State, pc: Pc, r: nat)
    requires pc.Collecting? && r in s.revisions && Books(s.stats, s.fates) && (r in s.pending ==> r !in s.fates)
    requires pc.newest.Names? ==> pc.newest.fragment !in s.fates
    ensures Books(TakeOne(s, pc, r).stats, TakeOne(s, pc, r).fates)
  {
    if r in s.pending {
      OneMoreFate(s.stats, s.fates, r, FailedRevision);
      OneMoreFate(s.stats, s.fates, r, Superseded);
      if pc.newest.Names? { OneMoreFate(s.stats, s.fates, pc.newest.fragment, Superseded); }
    }
  }

  lemma PublishBooks(s: State, r: nat)
    requires Books(s.stats, s.fates) && r !in s.fates && forall q :: q in s.pending ==> q !in s.fates
    requires r !in s.pending
    ensures Books(PublishNewest(s, r).stats, PublishNewest(s, r).fates)
  {
    var older := Older(s.pending, r);
    ManyAbandoned(s.stats, s.fates, older);
    OneMoreFate(More(s.stats, Abandoned, |older|), s.fates + AllAbandoned(older), r, Published);
  }

  lemma OtherBooks(s: State, t: nat, a: Action)
    requires Enabled(s, t, a) && Books(s.stats, s.fates) && !a.TakeCompleted? && !a.EndCollect?
    ensures Books(Apply(s, t, a).stats, Apply(s, t, a).fates)
  {}

  lemma StepBooks(s: State, t: nat, a: Action)
    requires 0 in s.threads && Fated(NewestOf(s.threads[0]), s.fates, s.pending, s.revisions, s.publishedSequence)
    requires Enabled(s, t, a) && Books(s.stats, s.fates)
    ensures Books(Apply(s, t, a).stats, Apply(s, t, a).fates)
  {
    var pc := s.threads[t];
    if a.TakeCompleted? {
      if pc.newest.Names? { assert pc.newest.fragment in NewestOf(pc); }
      TakeBooks(s, pc, a.revision);
    } else if a.EndCollect? {
      if pc.newest.Names? {
        assert pc.newest.fragment in NewestOf(pc);
        PublishBooks(s, pc.newest.fragment);
      }
    } else {
      OtherBooks(s, t, a);
    }
  }

  /** In every run each counter is the number of revisions with its fate. */
  lemma {:induction false} CountersAreFates(run: seq<State>, steps: seq<Step>, i: nat)
    requires IsRun(run, steps) && i < |run|
    ensures Books(run[i].stats, run[i].fates)
  {
    if i > 0 {
      CountersAreFates(run, steps, i - 1);
      RunInv(run, steps, i - 1);
      StepBooks(run[i - 1], steps[i - 1].thread, steps[i - 1].action);
    } else {
      forall f ensures Counted(run[0].fates, f) == {} {}
    }
  }
}
