/** Completions, Collect's books and what it hands to the frame: the whole invariant, kept by every action. */
module RevisionCoordinator {
  import opened RevisionAssembly
  import opened RevisionTokens

  // ---- completion and the coordinator ----

  ghost predicate IsPushing(ts: Threads, r: nat) {
    exists t :: t in ts && JobOf(ts[t]) == Pushing(r)
  }

  /** A revision whose count is at zero is completed, or one thread is about to complete it. */
  ghost predicate Completions(ts: Threads, rs: Revisions, completions: seq<nat>) {
    && (forall r :: r in rs && rs[r].owed == {} ==> r in completions || IsPushing(ts, r))
    && (forall t :: t in ts && JobOf(ts[t]).Pushing? ==>
          var r := JobOf(ts[t]).revision; r in rs && rs[r].owed == {} && r !in completions)
    && (forall t, u :: t in ts && u in ts && JobOf(ts[t]).Pushing? && JobOf(ts[u]) == JobOf(ts[t]) ==> t == u)
    && (forall i, j :: 0 <= i < j < |completions| ==> completions[i] != completions[j])
    && (forall r :: r in completions ==> r in rs && rs[r].owed == {})
  }

  function ListOf(pc: Pc): set<nat> {
    if pc.Collecting? then pc.list else {}
  }

  function NewestOf(pc: Pc): set<nat> {
    if pc.Collecting? && pc.newest.Names? then {pc.newest.fragment} else {}
  }

  /** Completed revisions are on the stack or in the coordinator's list until it has dealt with them. */
  ghost predicate Stack(list: set<nat>, completed: set<nat>, completions: seq<nat>, pending: set<nat>) {
    && (forall r :: r in completed ==> r in completions)
    && (forall r :: r in list ==> r in completions && r !in completed)
    && (forall r :: r in completions && r in pending ==> r in completed || r in list)
  }

  /** All fragments of the revision have settled and none failed. */
  ghost predicate Good(rs: Revisions, r: nat) {
    r in rs && rs[r].owed == {} && !rs[r].failed
  }

  /** What Collect made of each revision. */
  ghost predicate Fated(newest: set<nat>, fates: map<nat, Fate>, pending: set<nat>, rs: Revisions, published: nat) {
    && (forall r :: r in rs <==> r in fates || r in pending || r in newest)
    && (forall r :: r in pending || r in newest ==> r !in fates)
    && (forall r :: r in newest ==> r !in pending)
    && (forall r :: r in newest ==> Good(rs, r) && published < r)
    && (forall r :: r in fates && fates[r] == Published ==> Good(rs, r) && r <= published)
    && (forall r :: r in fates && fates[r] == FailedRevision ==> r in rs && rs[r].failed)
  }

  /** Every sealed revision is counted once. */
  ghost predicate Accounted(newest: set<nat>, stats: Stats, latest: nat, pending: set<nat>) {
    && stats.sealed == latest
    && stats.sealed == stats.published + stats.failed + stats.superseded + stats.abandoned + |pending| + |newest|
  }

  /** The revision the coordinator is handing over. */
  function Handing(pc: Pc): Slot {
    match pc
    case TakingBack(r) => Names(r)
    case Announcing(r) => Names(r)
    case _ => Nothing
  }

  /** What the frame selected, may select, and is about to be offered, in increasing order. */
  ghost predicate Offered(handing: Slot, announcing: bool, selected: seq<nat>, ready: Slot, fates: map<nat, Fate>, published: nat) {
    && (forall i, j :: 0 <= i < j < |selected| ==> selected[i] < selected[j])
    && (forall r :: r in selected ==> r in fates && fates[r] == Published)
    && (ready.Names? ==>
          && ready.fragment in fates && fates[ready.fragment] == Published && (forall r :: r in selected ==> r < ready.fragment))
    && (handing.Names? ==>
          && handing.fragment in fates && fates[handing.fragment] == Published && handing.fragment == published
          && (forall r :: r in selected ==> r < handing.fragment)
          && (ready.Names? ==> !announcing && ready.fragment < handing.fragment))
  }

  /** Sealed revisions keep their closure. */
  ghost predicate Whole(fs: Fragments, rs: Revisions) {
    forall r :: r in rs ==> Distinct(rs[r].slots) <= fs.Keys && Closure(fs, rs[r].slots)
  }

  /** The coordinator's side of the invariant. */
  ghost predicate CoordinatorInv(s: State) {
    && Sequenced(s)
    && Completions(s.threads, s.revisions, s.completions)
    && Stack(ListOf(s.threads[0]), s.completed, s.completions, s.pending)
    && Fated(NewestOf(s.threads[0]), s.fates, s.pending, s.revisions, s.publishedSequence)
    && Accounted(NewestOf(s.threads[0]), s.stats, s.latestSequence, s.pending)
    && Offered(Handing(s.threads[0]), s.threads[0].Announcing?, s.selected, s.ready, s.fates, s.publishedSequence)
    && Whole(s.fragments, s.revisions)
  }

  ghost predicate Inv(s: State) {
    TokenInv(s) && CoordinatorInv(s)
  }

  /** A thread's step that completes nothing. */
  lemma SameCompletions(ts: Threads, ts': Threads, rs: Revisions, rs': Revisions, completions: seq<nat>, t: nat, pc: Pc)
    requires Completions(ts, rs, completions) && t in ts && ts' == ts[t := pc]
    requires JobOf(pc) == JobOf(ts[t]) || (!JobOf(pc).Pushing? && !JobOf(ts[t]).Pushing?)
    requires rs'.Keys == rs.Keys && forall r :: r in rs ==> rs'[r].owed == rs[r].owed
    ensures Completions(ts', rs', completions)
  {
    forall r | r in rs' && rs'[r].owed == {} ensures r in completions || IsPushing(ts', r) {
      if r !in completions {
        assert IsPushing(ts, r);
        var u :| u in ts && JobOf(ts[u]) == Pushing(r);
        assert JobOf(ts'[u]) == Pushing(r);
      }
    }
  }

  // ---- every action keeps the coordinator's side ----

  /** The coordinator's own variables, the history and the frame's are as they were. */
  ghost predicate SameCoordinator(s: State, s': State) {
    && 0 in s.threads && 0 in s'.threads
    && ListOf(s'.threads[0]) == ListOf(s.threads[0]) && NewestOf(s'.threads[0]) == NewestOf(s.threads[0])
    && Handing(s'.threads[0]) == Handing(s.threads[0]) && s'.threads[0].Announcing? == s.threads[0].Announcing?
    && s'.pending == s.pending && s'.stats == s.stats && s'.fates == s.fates && s'.selected == s.selected && s'.ready == s.ready
    && s'.latestSequence == s.latestSequence && s'.publishedSequence == s.publishedSequence
    && s'.revisions.Keys == s.revisions.Keys
  }

  ghost predicate Settles(a: Action) {
    || a.NewFragment? || a.Claim? || a.Store? || a.Close? || a.TakeWaiter? || a.EndWalk? || a.Flag? || a.CountDown?
    || a.PushCompleted? || a.Attach? || a.OwnCount? || a.EndSeal?
  }

  lemma SettlesSame(s: State, t: nat, a: Action)
    requires Enabled(s, t, a) && 0 in s.threads && Settles(a) && Local(t, s.threads[t])
    ensures SameCoordinator(s, Apply(s, t, a))
  {
    var pc := s.threads[t];
    match a
    case Flag => assert SameCoordinator(s, FlagStep(s, t, pc, JobOf(pc).revision, JobOf(pc).fragment));
    case CountDown => assert SameCoordinator(s, CountStep(s, t, pc, JobOf(pc).revision, JobOf(pc).token));
    case PushCompleted => assert SameCoordinator(s, PushStep(s, t, pc, JobOf(pc).revision));
    case Attach(f) => assert SameCoordinator(s, AttachStep(s, pc, f));
    case _ =>
  }

  lemma SettlesSlots(s: State, t: nat, a: Action)
    requires Enabled(s, t, a) && 0 in s.threads && Settles(a) && Whole(s.fragments, s.revisions)
    ensures var s' := Apply(s, t, a); Whole(s'.fragments, s'.revisions)
  {
    var pc := s.threads[t];
    match a
    case NewFragment(f, qs) => var s1 := s.(fragments := s.fragments[f := Fragment(qs, false, Pending, false, {})]);
      assert Whole(s1.fragments, s1.revisions);
    case Claim(f, ok) => var s1 := ClaimStep(s, t, f, ok);
      assert Whole(s1.fragments, s1.revisions);
    case Store => var s1 := StoreStep(s, t, pc.fragment, pc.ok);
      assert Whole(s1.fragments, s1.revisions);
    case Close => var s1 := CloseStep(s, t, pc.fragment);
      assert Whole(s1.fragments, s1.revisions);
    case Flag => var s1 := FlagStep(s, t, pc, JobOf(pc).revision, JobOf(pc).fragment);
      assert Whole(s1.fragments, s1.revisions);
    case CountDown => var s1 := CountStep(s, t, pc, JobOf(pc).revision, JobOf(pc).token);
      assert Whole(s1.fragments, s1.revisions);
    case PushCompleted => var s1 := PushStep(s, t, pc, JobOf(pc).revision);
      assert Whole(s1.fragments, s1.revisions);
    case Attach(f) => var s1 := AttachStep(s, pc, f);
      assert Whole(s1.fragments, s1.revisions);
    case _ =>
  }

  lemma PushCompletions(s: State, s': State, t: nat, r: nat)
    requires t in s.threads && JobOf(s.threads[t]) == Pushing(r) && s' == PushStep(s, t, s.threads[t], r)
    requires Completions(s.threads, s.revisions, s.completions)
    ensures Completions(s'.threads, s'.revisions, s'.completions)
  {
    assert forall q :: q in s'.completions <==> q in s.completions || q == r;
    forall q | q in s'.revisions && s'.revisions[q].owed == {} && q !in s'.completions ensures IsPushing(s'.threads, q) {
      assert IsPushing(s.threads, q);
      var u :| u in s.threads && JobOf(s.threads[u]) == Pushing(q);
      assert JobOf(s'.threads[u]) == Pushing(q);
    }
  }

  /** The last token counted is the one that finds the count at one. */
  lemma CountsToZero(revision: Revision, token: Token)
    requires CountIsOwed(revision) && token in revision.owed
    ensures revision.remaining == 1 <==> revision.owed - {token} == {}
  {
    assert revision.owed == (revision.owed - {token}) + {token};
  }

  lemma CountCompletions(s: State, s': State, t: nat, r: nat, token: Token)
    requires t in s.threads && JobOf(s.threads[t]) == Counting(r, token) && r in s.revisions
    requires CountIsOwed(s.revisions[r]) && token in s.revisions[r].owed
    requires s' == CountStep(s, t, s.threads[t], r, token)
    requires Completions(s.threads, s.revisions, s.completions)
    ensures Completions(s'.threads, s'.revisions, s'.completions)
  {
    CountsToZero(s.revisions[r], token);
    assert JobOf(s'.threads[t]) == if s.revisions[r].remaining == 1 then Pushing(r) else NoJob;
    forall q | q in s'.revisions && s'.revisions[q].owed == {} ensures q in s'.completions || IsPushing(s'.threads, q) {
      if q == r {
        assert JobOf(s'.threads[t]) == Pushing(q);
      } else if q !in s.completions {
        assert IsPushing(s.threads, q);
        var u :| u in s.threads && JobOf(s.threads[u]) == Pushing(q);
        assert JobOf(s'.threads[u]) == Pushing(q);
      }
    }
  }

  lemma SettlesCompletions(s: State, t: nat, a: Action)
    requires Enabled(s, t, a) && Settles(a) && Completions(s.threads, s.revisions, s.completions)
    requires a.CountDown? ==>
      var job := JobOf(s.threads[t]); job.token in s.revisions[job.revision].owed && CountIsOwed(s.revisions[job.revision])
    ensures var s' := Apply(s, t, a); Completions(s'.threads, s'.revisions, s'.completions)
  {
    var pc, s' := s.threads[t], Apply(s, t, a);
    if a.CountDown? {
      CountCompletions(s, s', t, JobOf(pc).revision, JobOf(pc).token);
    } else if a.PushCompleted? {
      PushCompletions(s, s', t, JobOf(pc).revision);
    } else {
      SettlesNothing(s, t, a);
    }
  }

  lemma SettlesNothing(s: State, t: nat, a: Action)
    requires Enabled(s, t, a) && Settles(a) && !a.CountDown? && !a.PushCompleted?
    requires Completions(s.threads, s.revisions, s.completions)
    ensures var s' := Apply(s, t, a); Completions(s'.threads, s'.revisions, s'.completions)
  {
    var pc, s' := s.threads[t], Apply(s, t, a);
    if a.Flag? {
      var s1 := FlagStep(s, t, pc, JobOf(pc).revision, JobOf(pc).fragment);
      SameCompletions(s.threads, s1.threads, s.revisions, s1.revisions, s.completions, t, s1.threads[t]);
    } else if a.Attach? {
      var s1 := AttachStep(s, pc, a.fragment);
      SameCompletions(s.threads, s1.threads, s.revisions, s1.revisions, s.completions, t, s1.threads[t]);
    } else {
      assert s'.threads == s.threads[t := s'.threads[t]] && s'.revisions == s.revisions && s'.completions == s.completions;
      SameCompletions(s.threads, s'.threads, s.revisions, s'.revisions, s.completions, t, s'.threads[t]);
    }
  }

  lemma SettlesStack(s: State, t: nat, a: Action)
    requires Enabled(s, t, a) && 0 in s.threads && Settles(a) && Local(t, s.threads[t])
    requires Stack(ListOf(s.threads[0]), s.completed, s.completions, s.pending)
    requires a.PushCompleted? ==> JobOf(s.threads[t]).revision !in s.completions
    ensures var s' := Apply(s, t, a); Stack(ListOf(s.threads[0]), s'.completed, s'.completions, s'.pending)
  {
    var pc := s.threads[t];
    match a
    case Flag => assert FlagStep(s, t, pc, JobOf(pc).revision, JobOf(pc).fragment).completed == s.completed;
    case CountDown => assert CountStep(s, t, pc, JobOf(pc).revision, JobOf(pc).token).completed == s.completed;
    case PushCompleted =>
      var r := JobOf(pc).revision;
      assert forall q :: q in s.completions + [r] <==> q in s.completions || q == r;
    case _ =>
  }

  /** Flags and counts move only for a revision that still owes. */
  lemma SettlesFated(s: State, t: nat, a: Action)
    requires Enabled(s, t, a) && 0 in s.threads && Settles(a)
    requires a.Flag? || a.CountDown? ==> s.revisions[JobOf(s.threads[t]).revision].owed != {}
    requires Fated(NewestOf(s.threads[0]), s.fates, s.pending, s.revisions, s.publishedSequence)
    ensures Fated(NewestOf(s.threads[0]), s.fates, s.pending, Apply(s, t, a).revisions, s.publishedSequence)
  {
    var pc, rs := s.threads[t], s.revisions;
    if a.Flag? {
      OwingFated(s, FlagStep(s, t, pc, JobOf(pc).revision, JobOf(pc).fragment).revisions, JobOf(pc).revision);
    } else if a.CountDown? {
      OwingFated(s, CountStep(s, t, pc, JobOf(pc).revision, JobOf(pc).token).revisions, JobOf(pc).revision);
    } else {
      assert Apply(s, t, a).revisions == rs;
    }
  }

  lemma OwingFated(s: State, rs: Revisions, r: nat)
    requires 0 in s.threads && r in s.revisions && s.revisions[r].owed != {}
    requires r in rs && rs == s.revisions[r := rs[r]] && (s.revisions[r].failed ==> rs[r].failed)
    requires Fated(NewestOf(s.threads[0]), s.fates, s.pending, s.revisions, s.publishedSequence)
    ensures Fated(NewestOf(s.threads[0]), s.fates, s.pending, rs, s.publishedSequence)
  {
    assert rs.Keys == s.revisions.Keys;
  }

  /** What a job is about is still owed, and its count exact. */
  lemma JobOwed(s: State, t: nat)
    requires TokenInv(s) && t in s.threads && (JobOf(s.threads[t]).Flagging? || JobOf(s.threads[t]).Counting?)
    ensures var job := JobOf(s.threads[t]);
      && job.revision in s.revisions && CountIsOwed(s.revisions[job.revision])
      && (if job.Flagging? then Of(job.fragment) else job.token) in s.revisions[job.revision].owed
  {
    var job := JobOf(s.threads[t]);
    var token := if job.Flagging? then Of(job.fragment) else job.token;
    assert Holds(s.threads[t], job.revision, token) && OwedAndOut(s.fragments, s.revisions, job.revision, token);
  }

  lemma SettlesInv(s: State, t: nat, a: Action)
    requires Enabled(s, t, a) && CoordinatorInv(s) && Settles(a) && Local(t, s.threads[t])
    requires a.Flag? || a.CountDown? ==> s.revisions[JobOf(s.threads[t]).revision].owed != {}
    requires a.CountDown? ==>
      var job := JobOf(s.threads[t]); job.token in s.revisions[job.revision].owed && CountIsOwed(s.revisions[job.revision])
    ensures CoordinatorInv(Apply(s, t, a))
  {
    SettlesSame(s, t, a);
    SettlesSlots(s, t, a);
    SettlesCompletions(s, t, a);
    SettlesStack(s, t, a);
    SettlesFated(s, t, a);
  }

  lemma SealFated(s: State, s': State, q: nat)
    requires 0 in s.threads && q !in s.revisions && q in s'.revisions && s'.revisions == s.revisions[q := s'.revisions[q]]
    requires s'.pending == s.pending + {q}
    requires Fated({}, s.fates, s.pending, s.revisions, s.publishedSequence)
    ensures Fated({}, s.fates, s'.pending, s'.revisions, s.publishedSequence)
  {
    assert s'.revisions.Keys == s.revisions.Keys + {q};
  }

  lemma SealWhole(s: State, slots: seq<Slot>)
    requires Whole(s.fragments, s.revisions) && Distinct(slots) <= s.fragments.Keys && Closure(s.fragments, slots)
    ensures Whole(s.fragments, SealStep(s, slots).revisions)
  {}

  lemma SealInv(s: State, slots: seq<Slot>)
    requires CoordinatorInv(s) && s.threads[0] == Idle && Distinct(slots) <= s.fragments.Keys && Closure(s.fragments, slots)
    ensures CoordinatorInv(SealStep(s, slots))
  {
    var s', q := SealStep(s, slots), s.latestSequence + 1;
    SealFresh(s, slots);
    SealWhole(s, slots);
    SealFated(s, s', q);
    SealAccounted(s, slots);
    SealCompletions(s, s', q);
    SealStack(s, s', q);
  }

  /** The new revision's number was not in use. */
  lemma SealFresh(s: State, slots: seq<Slot>)
    requires Sequenced(s)
    ensures var s', q := SealStep(s, slots), s.latestSequence + 1;
      q !in s.revisions && q in s'.revisions && OfSeal in s'.revisions[q].owed && q !in s.pending && Sequenced(s')
  {}

  lemma SealAccounted(s: State, slots: seq<Slot>)
    requires s.latestSequence + 1 !in s.pending && Accounted({}, s.stats, s.latestSequence, s.pending)
    ensures var s' := SealStep(s, slots); Accounted({}, s'.stats, s'.latestSequence, s'.pending)
  {
    assert |s.pending + {s.latestSequence + 1}| == |s.pending| + 1;
  }

  lemma SealStack(s: State, s': State, q: nat)
    requires 0 in s.threads && s.threads[0] == Idle && q !in s.revisions && s'.pending == s.pending + {q}
    requires Completions(s.threads, s.revisions, s.completions)
    requires Stack({}, s.completed, s.completions, s.pending)
    ensures Stack({}, s.completed, s.completions, s'.pending)
  {}

  lemma SealCompletions(s: State, s': State, q: nat)
    requires 0 in s.threads && s.threads[0] == Idle && Completions(s.threads, s.revisions, s.completions)
    requires 0 in s'.threads && s'.threads == s.threads[0 := s'.threads[0]] && JobOf(s'.threads[0]) == NoJob
    requires q !in s.revisions && q in s'.revisions && s'.revisions == s.revisions[q := s'.revisions[q]] && s'.revisions[q].owed != {}
    ensures Completions(s'.threads, s'.revisions, s.completions)
  {
    forall r | r in s'.revisions && s'.revisions[r].owed == {} && r !in s.completions ensures IsPushing(s'.threads, r) {
      assert IsPushing(s.threads, r);
      var u :| u in s.threads && JobOf(s.threads[u]) == Pushing(r);
      assert JobOf(s'.threads[u]) == Pushing(r);
    }
  }

  /** What TakeOne makes of a completed revision, as sets. */
  lemma TakeFated(s: State, pc: Pc, r: nat)
    requires 0 in s.threads && pc == s.threads[0] && pc.Collecting? && r in s.revisions && s.revisions[r].owed == {}
    requires Fated(NewestOf(pc), s.fates, s.pending, s.revisions, s.publishedSequence)
    ensures var s' := TakeOne(s, pc, r);
      Fated(NewestOf(s'.threads[0]), s'.fates, s'.pending, s'.revisions, s'.publishedSequence)
  {
    var s' := TakeOne(s, pc, r);
    var newest, newest' := NewestOf(pc), NewestOf(s'.threads[0]);
    if r !in s.pending {
      assert s'.pending == s.pending && newest' == newest;
    } else if s.revisions[r].failed || r <= s.publishedSequence || (pc.newest.Names? && r < pc.newest.fragment) {
      assert newest' == newest && s'.fates.Keys == s.fates.Keys + {r};
    } else {
      assert newest' == {r} && s'.fates.Keys == s.fates.Keys + newest;
    }
  }

  lemma TakeAccounted(s: State, pc: Pc, r: nat)
    requires 0 in s.threads && pc == s.threads[0] && pc.Collecting? && r in s.revisions
    requires r in s.pending ==> r !in NewestOf(pc)
    requires Accounted(NewestOf(pc), s.stats, s.latestSequence, s.pending)
    ensures var s' := TakeOne(s, pc, r); Accounted(NewestOf(s'.threads[0]), s'.stats, s'.latestSequence, s'.pending)
  {
    if r in s.pending { assert |s.pending - {r}| == |s.pending| - 1; }
  }

  /** What TakeOne leaves alone. */
  lemma TakeFrame(s: State, pc: Pc, r: nat)
    requires 0 in s.threads && pc == s.threads[0] && pc.Collecting? && r in s.revisions
    ensures var s' := TakeOne(s, pc, r);
      && s'.revisions == s.revisions && s'.fragments == s.fragments && s'.completed == s.completed && s'.completions == s.completions
      && s'.selected == s.selected && s'.ready == s.ready && s'.publishedSequence == s.publishedSequence
      && s'.latestSequence == s.latestSequence && s'.pending == s.pending - {r}
      && 0 in s'.threads && s'.threads == s.threads[0 := s'.threads[0]]
      && s'.threads[0].Collecting? && s'.threads[0].list == pc.list - {r}
  {}

  lemma TakeKeepsPublished(s: State, pc: Pc, r: nat)
    requires 0 in s.threads && pc == s.threads[0] && pc.Collecting? && r in s.revisions
    requires Fated(NewestOf(pc), s.fates, s.pending, s.revisions, s.publishedSequence)
    ensures var s' := TakeOne(s, pc, r);
      forall q :: q in s.fates && s.fates[q] == Published ==> q in s'.fates && s'.fates[q] == Published
  {}

  lemma TakeInv(s: State, r: nat)
    requires CoordinatorInv(s) && s.threads[0].Collecting? && r in s.threads[0].list && r in s.revisions
    ensures CoordinatorInv(TakeOne(s, s.threads[0], r))
  {
    TakenIsDone(s, r);
    TakeMoves(s, TakeOne(s, s.threads[0], r), r);
    TakeCounts(s, TakeOne(s, s.threads[0], r), r);
  }

  lemma TakeMoves(s: State, s': State, r: nat)
    requires Sequenced(s) && Completions(s.threads, s.revisions, s.completions) && Whole(s.fragments, s.revisions)
    requires Stack(ListOf(s.threads[0]), s.completed, s.completions, s.pending)
    requires s.threads[0].Collecting? && r in s.revisions && s' == TakeOne(s, s.threads[0], r)
    ensures 0 in s'.threads
      && Sequenced(s')
      && Completions(s'.threads, s'.revisions, s'.completions)
      && Stack(ListOf(s'.threads[0]), s'.completed, s'.completions, s'.pending)
      && Whole(s'.fragments, s'.revisions)
  {
    TakeFrame(s, s.threads[0], r);
    CollectorMoves(s, s');
    TakeStack(s.threads[0].list, s.completed, s.completions, s.pending, r);
    TakeNumbered(s.revisions.Keys, s.pending, s.latestSequence, s.publishedSequence, r);
  }

  lemma TakeCounts(s: State, s': State, r: nat)
    requires CoordinatorInv(s) && s.threads[0].Collecting? && r in s.revisions && s' == TakeOne(s, s.threads[0], r)
    requires s.revisions[r].owed == {} && (r in s.pending ==> r !in NewestOf(s.threads[0]))
    ensures 0 in s'.threads
      && Fated(NewestOf(s'.threads[0]), s'.fates, s'.pending, s'.revisions, s'.publishedSequence)
      && Accounted(NewestOf(s'.threads[0]), s'.stats, s'.latestSequence, s'.pending)
      && Offered(Handing(s'.threads[0]), s'.threads[0].Announcing?, s'.selected, s'.ready, s'.fates, s'.publishedSequence)
  {
    TakeFrame(s, s.threads[0], r);
    TakeFated(s, s.threads[0], r);
    TakeAccounted(s, s.threads[0], r);
    TakeKeepsPublished(s, s.threads[0], r);
    TakeOffered(s, s');
  }

  lemma TakenIsDone(s: State, r: nat)
    requires CoordinatorInv(s) && s.threads[0].Collecting? && r in s.threads[0].list
    ensures r in s.revisions && s.revisions[r].owed == {} && (r in s.pending ==> r !in NewestOf(s.threads[0]))
  {
    assert r in s.completions;
  }

  lemma TakeStack(list: set<nat>, completed: set<nat>, completions: seq<nat>, pending: set<nat>, r: nat)
    requires Stack(list, completed, completions, pending)
    ensures Stack(list - {r}, completed, completions, pending - {r})
  {}

  lemma TakeNumbered(keys: set<nat>, pending: set<nat>, latest: nat, published: nat, r: nat)
    requires Numbered(keys, pending, latest, published)
    ensures Numbered(keys, pending - {r}, latest, published)
  {}

  /** The coordinator's own steps leave counts, completions and slots alone. */
  lemma CollectorMoves(s: State, s': State)
    requires 0 in s.threads && 0 in s'.threads && s'.threads == s.threads[0 := s'.threads[0]]
    requires JobOf(s.threads[0]) == NoJob && JobOf(s'.threads[0]) == NoJob
    requires s'.revisions == s.revisions && s'.fragments == s.fragments && s'.completions == s.completions
    requires Completions(s.threads, s.revisions, s.completions)
    ensures Completions(s'.threads, s'.revisions, s'.completions)
  {
    SameCompletions(s.threads, s'.threads, s.revisions, s'.revisions, s.completions, 0, s'.threads[0]);
  }

  lemma TakeOffered(s: State, s': State)
    requires 0 in s.threads && 0 in s'.threads && Handing(s.threads[0]) == Nothing && Handing(s'.threads[0]) == Nothing
    requires s'.selected == s.selected && s'.ready == s.ready
    requires forall q :: q in s.fates && s.fates[q] == Published ==> q in s'.fates && s'.fates[q] == Published
    requires Offered(Nothing, false, s.selected, s.ready, s.fates, s.publishedSequence)
    ensures Offered(Nothing, false, s'.selected, s'.ready, s'.fates, s'.publishedSequence)
  {}

  lemma FatesAfter(fates: map<nat, Fate>, older: set<nat>, r: nat)
    ensures var after := (fates + AllAbandoned(older))[r := Published];
      && after.Keys == fates.Keys + older + {r}
      && (forall q :: q in after ==> after[q] == if q == r then Published else if q in older then Abandoned else fates[q])
  {
    assert AllAbandoned(older).Keys == older;
  }

  lemma PublishFated(s: State, r: nat)
    requires Fated({r}, s.fates, s.pending, s.revisions, s.publishedSequence)
    ensures var older := Older(s.pending, r);
      Fated({}, (s.fates + AllAbandoned(older))[r := Published], s.pending - older, s.revisions, r)
  {
    FatesAfter(s.fates, Older(s.pending, r), r);
  }

  lemma PublishInv(s: State, r: nat)
    requires CoordinatorInv(s) && s.threads[0].Collecting? && s.threads[0].list == {} && s.threads[0].newest == Names(r)
    ensures CoordinatorInv(PublishNewest(s, r))
  {
    PublishMoves(s, PublishNewest(s, r), r);
    PublishCounts(s, PublishNewest(s, r), r);
  }

  lemma PublishMoves(s: State, s': State, r: nat)
    requires CoordinatorInv(s) && s.threads[0] == Collecting({}, Names(r)) && s' == PublishNewest(s, r)
    ensures 0 in s'.threads
      && Sequenced(s')
      && Completions(s'.threads, s'.revisions, s'.completions)
      && Stack(ListOf(s'.threads[0]), s'.completed, s'.completions, s'.pending)
      && Whole(s'.fragments, s'.revisions)
  {
    PublishFrame(s, r);
    CollectorMoves(s, s');
    PublishStack(s.completed, s.completions, s.pending, r);
    NewestIsGood(s, r);
    PublishNumbered(s.revisions.Keys, s.pending, s.latestSequence, s.publishedSequence, r);
  }

  lemma NewestIsGood(s: State, r: nat)
    requires 0 in s.threads && s.threads[0] == Collecting({}, Names(r))
    requires Fated(NewestOf(s.threads[0]), s.fates, s.pending, s.revisions, s.publishedSequence)
    ensures NewestOf(s.threads[0]) == {r} && r in s.revisions && r !in s.pending && s.publishedSequence < r
  {
    assert r in NewestOf(s.threads[0]);
  }

  lemma PublishCounts(s: State, s': State, r: nat)
    requires CoordinatorInv(s) && s.threads[0] == Collecting({}, Names(r)) && s' == PublishNewest(s, r)
    ensures 0 in s'.threads
      && Fated(NewestOf(s'.threads[0]), s'.fates, s'.pending, s'.revisions, s'.publishedSequence)
      && Accounted(NewestOf(s'.threads[0]), s'.stats, s'.latestSequence, s'.pending)
      && Offered(Handing(s'.threads[0]), s'.threads[0].Announcing?, s'.selected, s'.ready, s'.fates, s'.publishedSequence)
  {
    PublishFrame(s, r);
    NewestIsGood(s, r);
    PublishFated(s, r);
    PublishAccounted(s, r);
    PublishOffered(s, s', r);
  }

  /** What publishing leaves alone, and where the coordinator goes. */
  lemma PublishFrame(s: State, r: nat)
    ensures var s' := PublishNewest(s, r);
      && s'.revisions == s.revisions && s'.fragments == s.fragments && s'.completed == s.completed && s'.completions == s.completions
      && s'.latestSequence == s.latestSequence && s'.publishedSequence == r
      && s'.pending == s.pending - Older(s.pending, r)
      && s'.threads == s.threads[0 := TakingBack(r)] && s'.threads[0] == TakingBack(r)
      && NewestOf(s'.threads[0]) == {} && ListOf(s'.threads[0]) == {} && Handing(s'.threads[0]) == Names(r)
  {}

  lemma PublishAccounted(s: State, r: nat)
    requires Accounted({r}, s.stats, s.latestSequence, s.pending)
    ensures var s' := PublishNewest(s, r); Accounted({}, s'.stats, s'.latestSequence, s'.pending)
  {
    assert |s.pending - Older(s.pending, r)| == |s.pending| - |Older(s.pending, r)|;
  }

  lemma PublishStack(completed: set<nat>, completions: seq<nat>, pending: set<nat>, r: nat)
    requires Stack({}, completed, completions, pending)
    ensures Stack({}, completed, completions, pending - Older(pending, r))
  {}

  lemma PublishNumbered(keys: set<nat>, pending: set<nat>, latest: nat, published: nat, r: nat)
    requires Numbered(keys, pending, latest, published) && r in keys && r !in pending && published < r
    ensures Numbered(keys, pending - Older(pending, r), latest, r)
  {}

  lemma PublishOffered(s: State, s': State, r: nat)
    requires Fated({r}, s.fates, s.pending, s.revisions, s.publishedSequence) && s' == PublishNewest(s, r)
    requires Offered(Nothing, false, s.selected, s.ready, s.fates, s.publishedSequence)
    ensures Offered(Names(r), false, s'.selected, s'.ready, s'.fates, s'.publishedSequence)
  {
    FatesAfter(s.fates, Older(s.pending, r), r);
    assert forall q :: q in s.fates && s.fates[q] == Published ==> q in s'.fates && s'.fates[q] == Published;
  }

  lemma Appended(selected: seq<nat>, q: nat)
    requires forall i, j :: 0 <= i < j < |selected| ==> selected[i] < selected[j]
    requires forall r :: r in selected ==> r < q
    ensures forall i, j :: 0 <= i < j < |selected + [q]| ==> (selected + [q])[i] < (selected + [q])[j]
    ensures forall r :: r in selected + [q] <==> r in selected || r == q
  {
    forall i, j | 0 <= i < j < |selected + [q]| ensures (selected + [q])[i] < (selected + [q])[j] {
      assert selected[i] in selected;
    }
  }

  lemma SelectInv(s: State, accept: bool)
    requires CoordinatorInv(s)
    ensures CoordinatorInv(SelectStep(s, accept))
  {
    if s.ready.Names? { Appended(s.selected, s.ready.fragment); }
  }

  lemma CollectInv(s: State)
    requires CoordinatorInv(s) && s.threads[0] == Idle
    ensures CoordinatorInv(s.(threads := s.threads[0 := Collecting(s.completed, Nothing)], completed := {}))
  {
    SameCompletions(s.threads, s.threads[0 := Collecting(s.completed, Nothing)], s.revisions, s.revisions, s.completions, 0,
      Collecting(s.completed, Nothing));
  }

  lemma TakeBackInv(s: State, r: nat)
    requires CoordinatorInv(s) && s.threads[0] == TakingBack(r)
    ensures CoordinatorInv(s.(threads := s.threads[0 := Announcing(r)], ready := Nothing))
  {
    SameCompletions(s.threads, s.threads[0 := Announcing(r)], s.revisions, s.revisions, s.completions, 0, Announcing(r));
    TakeBackOffered(s.selected, s.ready, s.fates, s.publishedSequence, r);
  }

  lemma TakeBackOffered(selected: seq<nat>, ready: Slot, fates: map<nat, Fate>, published: nat, r: nat)
    requires Offered(Names(r), false, selected, ready, fates, published)
    ensures Offered(Names(r), true, selected, Nothing, fates, published)
  {}

  lemma AnnounceInv(s: State, r: nat)
    requires CoordinatorInv(s) && s.threads[0] == Announcing(r)
    ensures CoordinatorInv(s.(threads := s.threads[0 := Idle], ready := Names(r)))
  {
    SameCompletions(s.threads, s.threads[0 := Idle], s.revisions, s.revisions, s.completions, 0, Idle);
  }

  lemma StepInv(s: State, t: nat, a: Action)
    requires Inv(s) && Enabled(s, t, a)
    ensures Inv(Apply(s, t, a))
  {
    StepTokens(s, t, a);
    if Settles(a) {
      if a.Flag? || a.CountDown? { JobOwed(s, t); }
      SettlesInv(s, t, a);
    } else {
      CoordinatorStep(s, t, a);
    }
  }

  lemma CoordinatorStep(s: State, t: nat, a: Action)
    requires CoordinatorInv(s) && Enabled(s, t, a) && !Settles(a)
    ensures CoordinatorInv(Apply(s, t, a))
  {
    if a.Seal? {
      if Sealable(s, a.base, a.slots) { SealInv(s, a.slots); }
    } else if a.TakeCompleted? {
      TakeInv(s, a.revision);
    } else if a.EndCollect? {
      if s.threads[0].newest.Names? { PublishInv(s, s.threads[0].newest.fragment); } else { IdleInv(s); }
    } else if a.Select? {
      SelectInv(s, a.accept);
    } else if a.Collect? {
      CollectInv(s);
    } else if a.TakeBack? {
      TakeBackInv(s, s.threads[0].revision);
    } else {
      AnnounceInv(s, s.threads[0].revision);
    }
  }

  lemma IdleInv(s: State)
    requires CoordinatorInv(s) && s.threads[0] == Collecting({}, Nothing)
    ensures CoordinatorInv(Goto(s, 0, Idle))
  {
    SameCompletions(s.threads, s.threads[0 := Idle], s.revisions, s.revisions, s.completions, 0, Idle);
  }
}
