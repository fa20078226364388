/** What every interleaving of settlers, coordinator and frame keeps. */
module RevisionRun {
  import opened RevisionAssembly
  import opened RevisionTokens
  import opened RevisionCoordinator

  // ---- a claimed fragment is settled by someone ----

  ghost predicate SomeoneSettles(ts: Threads, f: nat) {
    exists t :: t in ts && (ts[t] == Stored(f) || (ts[t].Claimed? && ts[t].fragment == f))
  }

  /** A claimed fragment whose list is still open has a thread on the way to closing it. */
  ghost predicate Underway(ts: Threads, fs: Fragments) {
    forall f :: f in fs && fs[f].claimed && !fs[f].closed ==> SomeoneSettles(ts, f)
  }

  /** A step of a thread that is not settling, which neither claims nor opens a fragment. */
  lemma UnderwayKept(ts: Threads, fs: Fragments, fs': Fragments, t: nat, pc: Pc)
    requires Underway(ts, fs) && t in ts && !ts[t].Claimed? && !ts[t].Stored?
    requires forall f :: f in fs' && fs'[f].claimed && !fs'[f].closed ==> f in fs && fs[f].claimed && !fs[f].closed
    ensures Underway(ts[t := pc], fs')
  {
    forall f | f in fs' && fs'[f].claimed && !fs'[f].closed ensures SomeoneSettles(ts[t := pc], f) {
      assert SomeoneSettles(ts, f);
      var u :| u in ts && (ts[u] == Stored(f) || (ts[u].Claimed? && ts[u].fragment == f));
      assert ts[t := pc][u] == ts[u];
    }
  }

  lemma SettlerMoves(ts: Threads, fs: Fragments, fs': Fragments, t: nat, pc: Pc, g: nat)
    requires Underway(ts, fs) && t in ts && (ts[t].Claimed? || ts[t].Stored? ==> ts[t].fragment == g)
    requires g in fs' && (fs'[g].closed || pc == Stored(g) || (pc.Claimed? && pc.fragment == g))
    requires forall f :: f in fs' && f != g ==> f in fs && fs'[f] == fs[f]
    ensures Underway(ts[t := pc], fs')
  {
    forall f | f in fs' && fs'[f].claimed && !fs'[f].closed ensures SomeoneSettles(ts[t := pc], f) {
      if f == g {
        assert ts[t := pc][t] == pc;
      } else {
        assert SomeoneSettles(ts, f);
        var u :| u in ts && (ts[u] == Stored(f) || (ts[u].Claimed? && ts[u].fragment == f));
        assert ts[t := pc][u] == ts[u];
      }
    }
  }

  lemma SettlesFrame(s: State, t: nat, a: Action)
    requires Enabled(s, t, a) && 0 in s.threads && !a.Claim? && !a.Store? && !a.Close?
    ensures var s' := Apply(s, t, a);
      && (a.Select? ==> s'.threads == s.threads)
      && (!a.Select? ==> t in s'.threads && s'.threads == s.threads[t := s'.threads[t]])
      && (forall f :: f in s'.fragments && s'.fragments[f].claimed && !s'.fragments[f].closed ==>
            f in s.fragments && s.fragments[f].claimed && !s.fragments[f].closed)
  {
    var s' := Apply(s, t, a);
    assert a.NewFragment? ==> s'.threads == s.threads[t := s.threads[t]];
    assert a.Seal? ==> s'.threads == s.threads[t := s'.threads[t]];
    assert !a.NewFragment? && !a.Seal? && !a.Select? ==> s'.threads == s.threads[t := s'.threads[t]];
  }

  lemma StepUnderway(s: State, t: nat, a: Action)
    requires Enabled(s, t, a) && 0 in s.threads && Underway(s.threads, s.fragments)
    ensures var s' := Apply(s, t, a); Underway(s'.threads, s'.fragments)
  {
    var s', pc := Apply(s, t, a), s.threads[t];
    if a.Claim? {
      if !s.fragments[a.fragment].claimed {
        SettlerMoves(s.threads, s.fragments, s'.fragments, t, Claimed(a.fragment, a.ok), a.fragment);
      }
    } else if a.Store? {
      SettlerMoves(s.threads, s.fragments, s'.fragments, t, Stored(pc.fragment), pc.fragment);
    } else if a.Close? {
      SettlerMoves(s.threads, s.fragments, s'.fragments, t, s'.threads[t], pc.fragment);
    } else {
      SettlesFrame(s, t, a);
      if a.Select? {
        assert Underway(s.threads, s'.fragments);
      } else {
        UnderwayKept(s.threads, s.fragments, s'.fragments, t, s'.threads[t]);
      }
    }
  }

  // ---- every run ----

  lemma InitInv(s: State)
    requires Init(s)
    ensures Inv(s) && Underway(s.threads, s.fragments)
  {
    assert s.fates.Keys == {} && s.revisions.Keys == {};
  }

  lemma {:induction false} RunInv(run: seq<State>, steps: seq<Step>, i: nat)
    requires IsRun(run, steps) && i < |run|
    ensures Inv(run[i]) && Underway(run[i].threads, run[i].fragments)
  {
    if i == 0 {
      InitInv(run[0]);
    } else {
      RunInv(run, steps, i - 1);
      var step := steps[i - 1];
      assert run[i] == Apply(run[i - 1], step.thread, step.action);
      StepInv(run[i - 1], step.thread, step.action);
      StepUnderway(run[i - 1], step.thread, step.action);
    }
  }

  /** Every fragment the revision names is ready, and the requirements of all of them are met by its slots. */
  ghost predicate Coherent(s: State, r: nat) {
    && r in s.revisions && !s.revisions[r].failed
    && (forall f :: f in Distinct(s.revisions[r].slots) ==> f in s.fragments && s.fragments[f].state == Ready)
    && Closure(s.fragments, s.revisions[r].slots)
  }

  lemma GoodIsCoherent(s: State, r: nat)
    requires Outcomes(s.threads, s.fragments, s.revisions) && Whole(s.fragments, s.revisions) && Good(s.revisions, r)
    ensures Coherent(s, r)
  {
    forall f | f in Distinct(s.revisions[r].slots) ensures f in s.fragments && s.fragments[f].state == Ready {
      assert Noted(s.fragments, s.revisions, r, f);
    }
  }

  /** In every interleaving, what the frame selected is coherent, and so is what it may select next. */
  lemma SelectedIsCoherent(run: seq<State>, steps: seq<Step>, i: nat, r: nat)
    requires IsRun(run, steps) && i < |run| && (r in run[i].selected || run[i].ready == Names(r))
    ensures Coherent(run[i], r)
  {
    RunInv(run, steps, i);
    assert run[i].fates[r] == Published;
    GoodIsCoherent(run[i], r);
  }

  /** The frame never goes back to an older revision, nor selects one twice. */
  lemma SelectedIncreases(run: seq<State>, steps: seq<Step>, i: nat, j: nat, k: nat)
    requires IsRun(run, steps) && i < |run| && j < k < |run[i].selected|
    ensures run[i].selected[j] < run[i].selected[k]
  {
    RunInv(run, steps, i);
  }

  lemma StepFates(s: State, t: nat, a: Action, r: nat)
    requires Enabled(s, t, a) && r in s.fates && 0 in s.threads
    requires Fated(NewestOf(s.threads[0]), s.fates, s.pending, s.revisions, s.publishedSequence)
    ensures r in Apply(s, t, a).fates && Apply(s, t, a).fates[r] == s.fates[r]
  {
    var pc := s.threads[t];
    assert r !in s.pending && r !in NewestOf(s.threads[0]);
    if a.TakeCompleted? {
      TakeKeepsFate(s, pc, a.revision, r);
    } else if a.EndCollect? {
      if pc.newest.Names? {
        FatesAfter(s.fates, Older(s.pending, pc.newest.fragment), pc.newest.fragment);
      }
    } else {
      OtherFates(s, t, a);
    }
  }

  lemma TakeKeepsFate(s: State, pc: Pc, q: nat, r: nat)
    requires pc.Collecting? && q in s.revisions && r in s.fates && r !in s.pending && r !in NewestOf(pc)
    ensures r in TakeOne(s, pc, q).fates && TakeOne(s, pc, q).fates[r] == s.fates[r]
  {}

  lemma OtherFates(s: State, t: nat, a: Action)
    requires Enabled(s, t, a) && !a.TakeCompleted? && !a.EndCollect?
    ensures Apply(s, t, a).fates == s.fates
  {}

  lemma RunFates(run: seq<State>, steps: seq<Step>, i: nat, r: nat)
    requires IsRun(run, steps) && i < |steps| && r in run[i].fates
    ensures r in run[i + 1].fates && run[i + 1].fates[r] == run[i].fates[r]
  {
    RunInv(run, steps, i);
    StepFates(run[i], steps[i].thread, steps[i].action, r);
  }

  /** What Collect decided of a revision, it never decides again. */
  lemma {:induction false} FateIsFinal(run: seq<State>, steps: seq<Step>, i: nat, j: nat, r: nat)
    requires IsRun(run, steps) && i <= j < |run| && r in run[i].fates
    ensures r in run[j].fates && run[j].fates[r] == run[i].fates[r]
    decreases j
  {
    if i < j {
      FateIsFinal(run, steps, i, j - 1, r);
      RunFates(run, steps, j - 1, r);
    }
  }

  /** A failed, superseded or abandoned revision is never selected, at any time of the run. */
  lemma OnlyPublishedIsSelected(run: seq<State>, steps: seq<Step>, i: nat, j: nat, r: nat)
    requires IsRun(run, steps) && i < |run| && j < |run| && r in run[i].fates && run[i].fates[r] != Published
    ensures r !in run[j].selected && run[j].ready != Names(r)
  {
    RunInv(run, steps, j);
    if i <= j { FateIsFinal(run, steps, i, j, r); } else if r in run[j].fates { FateIsFinal(run, steps, j, i, r); }
  }

  /** A revision completes at most once, and only after its seal finished and every fragment it names settled. */
  lemma CompletesAtMostOnce(run: seq<State>, steps: seq<Step>, i: nat)
    requires IsRun(run, steps) && i < |run|
    ensures forall j, k :: 0 <= j < k < |run[i].completions| ==> run[i].completions[j] != run[i].completions[k]
    ensures forall r :: r in run[i].completions ==> HasSettled(run[i].fragments, run[i].revisions, r)
  {
    RunInv(run, steps, i);
    CompletedHaveSettled(run[i]);
  }

  /** The seal counted itself off, and every fragment named is ready or failed. */
  ghost predicate HasSettled(fs: Fragments, rs: Revisions, r: nat) {
    r in rs && OfSeal !in rs[r].owed && forall f :: f in Distinct(rs[r].slots) ==> PastStore(fs, f)
  }

  lemma CompletedHaveSettled(s: State)
    requires Outcomes(s.threads, s.fragments, s.revisions) && Completions(s.threads, s.revisions, s.completions)
    ensures forall r :: r in s.completions ==> HasSettled(s.fragments, s.revisions, r)
  {
    forall r, f | r in s.completions && f in Distinct(s.revisions[r].slots) ensures PastStore(s.fragments, f) {
      assert Noted(s.fragments, s.revisions, r, f);
    }
  }

  lemma NothingOwed(ts: Threads, fs: Fragments, rs: Revisions, pending: set<nat>, r: nat)
    requires Places(ts, fs, rs, pending) && Underway(ts, fs) && Settling(ts, fs) && forall t :: t in ts ==> ts[t] == Idle
    requires r in pending && r in rs && CountIsOwed(rs[r])
    requires forall f :: f in Distinct(rs[r].slots) && f in fs ==> fs[f].claimed
    ensures rs[r].owed == {}
  {
    assert forall f :: !SomeoneSettles(ts, f);
    assert forall token :: !SomeoneHolds(ts, r, token);
    assert forall token :: token in rs[r].owed ==> Waits(fs, r, token);
    if token :| token in rs[r].owed {
      assert false;
    }
  }

  lemma NothingPushing(s: State, r: nat)
    requires CoordinatorInv(s) && r in s.pending && r in s.revisions && s.revisions[r].owed == {}
    requires forall t :: t in s.threads ==> s.threads[t] == Idle
    ensures r in s.completions && r in s.completed
  {
    assert !IsPushing(s.threads, r);
  }

  /** Once no thread is inside the protocol, a pending revision all of whose fragments were settled has completed and waits on the
      stack for the next Collect: no completion is lost. */
  lemma SettledThenCompleted(run: seq<State>, steps: seq<Step>, i: nat, r: nat)
    requires IsRun(run, steps) && i < |run| && forall t :: t in run[i].threads ==> run[i].threads[t] == Idle
    requires r in run[i].pending && r in run[i].revisions
    requires forall f :: f in Distinct(run[i].revisions[r].slots) && f in run[i].fragments ==> run[i].fragments[f].claimed
    ensures r in run[i].completions && r in run[i].completed
  {
    RunInv(run, steps, i);
    NothingOwed(run[i].threads, run[i].fragments, run[i].revisions, run[i].pending, r);
    NothingPushing(run[i], r);
  }

  /** Every sealed revision is counted exactly once: decided, pending, or in the coordinator's hand; the pending ones are newer than
      the last published. */
  lemma SealedIsAccounted(run: seq<State>, steps: seq<Step>, i: nat)
    requires IsRun(run, steps) && i < |run|
    ensures 0 in run[i].threads
    ensures var c := run[i].stats;
      c.sealed == c.published + c.failed + c.superseded + c.abandoned + |run[i].pending| + |NewestOf(run[i].threads[0])|
    ensures run[i].threads[0] == Idle ==> NewestOf(run[i].threads[0]) == {}
    ensures forall r :: r in run[i].pending ==> run[i].publishedSequence < r <= run[i].latestSequence
  {
    RunInv(run, steps, i);
  }
}
