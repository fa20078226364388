/** Whoever counts a revision down holds one token of it: the invariant of the counts, and that every action keeps it. */
module RevisionTokens {
  import opened RevisionAssembly

  type Threads = map<nat, Pc>
  type Fragments = map<nat, Fragment>
  type Revisions = map<nat, Revision>

  // ---- the invariant ----

  ghost predicate JobHolds(job: Job, r: nat, token: Token) {
    match job
    case Flagging(q, f) => q == r && token == Of(f)
    case Counting(q, tok) => q == r && token == tok
    case _ => false
  }

  /** The thread will count this token of the revision down. */
  ghost predicate Holds(pc: Pc, r: nat, token: Token) {
    match pc
    case Walking(f, list, job) => (token == Of(f) && r in list) || JobHolds(job, r, token)
    case Sealing(q, todo, own, job) =>
      (q == r && if token.OfSeal? then own else token.fragment in todo) || JobHolds(job, r, token)
    case _ => false
  }

  /** The token waits on its fragment's list. */
  ghost predicate Waits(fs: Fragments, r: nat, token: Token) {
    token.Of? && token.fragment in fs && r in fs[token.fragment].waiters
  }

  /** A thread's own list and job never name one token twice, and only the coordinator seals and collects. */
  ghost predicate Local(t: nat, pc: Pc) {
    match pc
    case Walking(f, list, Flagging(r, g)) => t != 0 && g == f && r !in list
    case Walking(f, list, Counting(r, token)) => t != 0 && token == Of(f) && r !in list
    case Walking(_, _, _) => t != 0
    case Sealing(q, todo, _, Flagging(r, f)) => t == 0 && r == q && f !in todo
    case Sealing(q, todo, own, Counting(r, token)) => t == 0 && r == q && if token.OfSeal? then !own else token.fragment !in todo
    case Sealing(q, _, _, Pushing(r)) => t == 0 && r == q
    case Sealing(_, _, _, _) => t == 0
    case Claimed(_, _) => t != 0
    case Stored(_) => t != 0
    case Idle => true
    case _ => t == 0
  }

  /** The token is owed, and not waiting on its fragment's list. */
  ghost predicate OwedAndOut(fs: Fragments, rs: Revisions, r: nat, token: Token) {
    r in rs && token in rs[r].owed && !Waits(fs, r, token)
  }

  /** Every token held or waiting is owed, and is in one place only. */
  ghost predicate TokensOwed(ts: Threads, fs: Fragments, rs: Revisions) {
    && (forall t :: t in ts ==> Local(t, ts[t]))
    && (forall t, r, token :: t in ts && Holds(ts[t], r, token) ==> OwedAndOut(fs, rs, r, token))
    && (forall t, u, r, token :: t in ts && u in ts && Holds(ts[t], r, token) && Holds(ts[u], r, token) ==> t == u)
    && (forall r, token :: Waits(fs, r, token) ==> r in rs && token in rs[r].owed)
  }

  ghost predicate SomeoneHolds(ts: Threads, r: nat, token: Token) {
    exists t :: t in ts && Holds(ts[t], r, token)
  }

  /** The count is the tokens owed, each of a fragment the revision names or of its seal. */
  ghost predicate CountIsOwed(revision: Revision) {
    && revision.remaining == |revision.owed|
    && (forall token :: token in revision.owed && token.Of? ==> token.fragment in Distinct(revision.slots))
  }

  /** Every token a pending revision owes has a place to be counted from. */
  ghost predicate Places(ts: Threads, fs: Fragments, rs: Revisions, pending: set<nat>) {
    forall r, token :: r in pending && r in rs && token in rs[r].owed ==> Waits(fs, r, token) || SomeoneHolds(ts, r, token)
  }

  ghost predicate SettlerOf(pc: Pc, f: nat) {
    (pc.Claimed? || pc.Stored? || pc.Walking?) && pc.fragment == f
  }

  ghost predicate PastStore(fs: Fragments, f: nat) {
    f in fs && fs[f].state != Pending
  }

  /** What a settler's place says of its fragment. */
  ghost predicate SettlerState(fs: Fragments, pc: Pc) {
    match pc
    case Claimed(f, _) => f in fs && fs[f].claimed && fs[f].state == Pending && !fs[f].closed
    case Stored(f) => PastStore(fs, f) && fs[f].claimed && !fs[f].closed
    case Walking(f, _, _) => PastStore(fs, f) && fs[f].claimed && fs[f].closed
    case _ => true
  }

  /** A fragment has one settler; its state is set before its list closes. */
  ghost predicate Settling(ts: Threads, fs: Fragments) {
    && (forall t :: t in ts ==> SettlerState(fs, ts[t]))
    && (forall t, u, f :: t in ts && u in ts && SettlerOf(ts[t], f) && SettlerOf(ts[u], f) ==> t == u)
    && (forall f :: f in fs ==>
          && (fs[f].closed ==> fs[f].state != Pending && fs[f].waiters == {})
          && (!fs[f].claimed ==> fs[f].state == Pending && !fs[f].closed))
  }

  /** The fragment has settled, and a failure of it is on the revision. */
  ghost predicate Noted(fs: Fragments, rs: Revisions, r: nat, f: nat) {
    PastStore(fs, f) && r in rs && (fs[f].state == Failed ==> rs[r].failed)
  }

  ghost predicate JobNoted(fs: Fragments, rs: Revisions, job: Job) {
    match job
    case Flagging(_, f) => PastStore(fs, f)
    case Counting(r, Of(f)) => Noted(fs, rs, r, f)
    case _ => true
  }

  ghost predicate NamesFailed(fs: Fragments, slots: seq<Slot>) {
    exists f :: f in Distinct(slots) && f in fs && fs[f].state == Failed
  }

  /** Every fragment counted off a revision has settled, and the revision is marked failed exactly when one of them failed. */
  ghost predicate Outcomes(ts: Threads, fs: Fragments, rs: Revisions) {
    && (forall r :: r in rs ==> Distinct(rs[r].slots) <= fs.Keys)
    && (forall r, f :: r in rs && f in Distinct(rs[r].slots) && Of(f) !in rs[r].owed ==> Noted(fs, rs, r, f))
    && (forall t :: t in ts ==> JobNoted(fs, rs, JobOf(ts[t])))
    && (forall r :: r in rs && rs[r].failed ==> NamesFailed(fs, rs[r].slots))
  }

  ghost predicate TokenInv(s: State) {
    && TokensOwed(s.threads, s.fragments, s.revisions)
    && (forall r :: r in s.revisions ==> CountIsOwed(s.revisions[r]))
    && Places(s.threads, s.fragments, s.revisions, s.pending)
    && Settling(s.threads, s.fragments)
    && Outcomes(s.threads, s.fragments, s.revisions)
  }

  // ---- every action keeps the tokens ----

  /** Thread t goes to `pc`; a token it held or that waited moves between the two, and none is counted or made. */
  ghost predicate Moves(s: State, s': State, t: nat, pc: Pc) {
    && t in s.threads && s'.threads == s.threads[t := pc] && Local(t, pc)
    && s'.pending <= s.pending
    && s'.revisions.Keys == s.revisions.Keys
    && (forall r :: r in s.revisions ==> s'.revisions[r].owed == s.revisions[r].owed)
    && (forall r, token :: Waits(s'.fragments, r, token) ==>
          Waits(s.fragments, r, token) || (Holds(s.threads[t], r, token) && !Holds(pc, r, token)))
    && (forall r, token :: Holds(pc, r, token) ==>
          !Waits(s'.fragments, r, token) && (Holds(s.threads[t], r, token) || Waits(s.fragments, r, token)))
    && (forall r, token :: Waits(s.fragments, r, token) ==> Waits(s'.fragments, r, token) || Holds(pc, r, token))
    && (forall r, token :: Holds(s.threads[t], r, token) && r in s'.pending ==> Waits(s'.fragments, r, token) || Holds(pc, r, token))
  }

  lemma MovesOwed(s: State, s': State, t: nat, pc: Pc)
    requires TokenInv(s) && Moves(s, s', t, pc)
    ensures TokensOwed(s'.threads, s'.fragments, s'.revisions)
  {
    forall u, r, token | u in s.threads && u != t && Holds(s.threads[u], r, token)
      ensures OwedAndOut(s'.fragments, s'.revisions, r, token) && !Holds(pc, r, token)
    {
      assert OwedAndOut(s.fragments, s.revisions, r, token);
      assert !Holds(s.threads[t], r, token);
    }
    forall r, token | Holds(pc, r, token) ensures OwedAndOut(s'.fragments, s'.revisions, r, token) {
      if Holds(s.threads[t], r, token) { assert OwedAndOut(s.fragments, s.revisions, r, token); }
    }
    forall r, token | Waits(s'.fragments, r, token) ensures r in s'.revisions && token in s'.revisions[r].owed {
      if !Waits(s.fragments, r, token) { assert OwedAndOut(s.fragments, s.revisions, r, token); }
    }
  }

  lemma MovesPlaces(s: State, s': State, t: nat, pc: Pc)
    requires TokenInv(s) && Moves(s, s', t, pc)
    ensures Places(s'.threads, s'.fragments, s'.revisions, s'.pending)
  {
    forall r, token | r in s'.pending && r in s'.revisions && token in s'.revisions[r].owed
      ensures Waits(s'.fragments, r, token) || SomeoneHolds(s'.threads, r, token)
    {
      assert Waits(s.fragments, r, token) || SomeoneHolds(s.threads, r, token);
      if !Waits(s'.fragments, r, token) && !Holds(pc, r, token) {
        var u :| u in s.threads && Holds(s.threads[u], r, token);
        assert u != t && Holds(s'.threads[u], r, token);
      }
      if Holds(pc, r, token) { assert Holds(s'.threads[t], r, token); }
    }
  }

  /** Actions that change neither fragments nor revisions. */
  lemma Quiet(s: State, s': State, t: nat, pc: Pc)
    requires TokenInv(s) && t in s.threads && s'.threads == s.threads[t := pc] && Local(t, pc)
    requires s'.fragments == s.fragments && s'.revisions == s.revisions && s'.pending <= s.pending
    requires forall r, token :: Holds(pc, r, token) ==> Holds(s.threads[t], r, token)
    requires forall r, token :: Holds(s.threads[t], r, token) && r in s'.pending ==> Holds(pc, r, token)
    requires forall f :: SettlerOf(pc, f) ==> SettlerOf(s.threads[t], f)
    requires SettlerState(s.fragments, pc) && JobNoted(s.fragments, s.revisions, JobOf(pc))
    ensures TokenInv(s')
  {
    assert forall r, token :: Holds(s.threads[t], r, token) ==> OwedAndOut(s.fragments, s.revisions, r, token);
    MovesOwed(s, s', t, pc);
    MovesPlaces(s, s', t, pc);
    assert Settling(s'.threads, s'.fragments);
    assert Outcomes(s'.threads, s'.fragments, s'.revisions);
  }

  /** Fragment f changes, its waiters apart. */
  lemma SameWaits(fs: Fragments, f: nat, fragment: Fragment)
    requires fragment.waiters == if f in fs then fs[f].waiters else {}
    ensures forall r, token :: Waits(fs[f := fragment], r, token) <==> Waits(fs, r, token)
  {}

  /** Fragment f is made, or changes without losing a state it had; thread t has no job after. */
  ghost predicate FragmentStep(s: State, s': State, t: nat, f: nat, pc: Pc) {
    && t in s.threads && s'.threads == s.threads[t := pc] && JobOf(pc) == NoJob
    && s'.revisions == s.revisions && s'.pending == s.pending
    && f in s'.fragments && s'.fragments == s.fragments[f := s'.fragments[f]]
    && (PastStore(s.fragments, f) ==> s'.fragments[f].state == s.fragments[f].state)
  }

  lemma FragmentOutcomes(s: State, s': State, t: nat, f: nat, pc: Pc)
    requires TokenInv(s) && FragmentStep(s, s', t, f, pc)
    ensures Outcomes(s'.threads, s'.fragments, s'.revisions)
  {
    assert forall g :: PastStore(s.fragments, g) ==> PastStore(s'.fragments, g) && s'.fragments[g].state == s.fragments[g].state;
    forall r | r in s.revisions && s.revisions[r].failed ensures NamesFailed(s'.fragments, s.revisions[r].slots) {
      assert NamesFailed(s.fragments, s.revisions[r].slots);
      var g :| g in Distinct(s.revisions[r].slots) && g in s.fragments && s.fragments[g].state == Failed;
      assert PastStore(s.fragments, g);
    }
    forall u | u in s.threads ensures JobNoted(s'.fragments, s'.revisions, JobOf(s'.threads[u])) {
      if u != t { assert JobNoted(s.fragments, s.revisions, JobOf(s.threads[u])); }
    }
    forall r, g | r in s.revisions && g in Distinct(s.revisions[r].slots) && Of(g) !in s.revisions[r].owed
      ensures Noted(s'.fragments, s'.revisions, r, g)
    {
      assert Noted(s.fragments, s.revisions, r, g);
    }
  }

  lemma FragmentTokens(s: State, s': State, t: nat, f: nat, pc: Pc)
    requires TokenInv(s) && FragmentStep(s, s', t, f, pc) && Local(t, pc)
    requires s'.fragments[f].waiters == if f in s.fragments then s.fragments[f].waiters else {}
    requires forall r, token :: Holds(pc, r, token) <==> Holds(s.threads[t], r, token)
    ensures TokensOwed(s'.threads, s'.fragments, s'.revisions) && Places(s'.threads, s'.fragments, s'.revisions, s'.pending)
  {
    SameWaits(s.fragments, f, s'.fragments[f]);
    forall r, token | Holds(pc, r, token) ensures !Waits(s'.fragments, r, token) {
      assert OwedAndOut(s.fragments, s.revisions, r, token);
    }
    MovesOwed(s, s', t, pc);
    MovesPlaces(s, s', t, pc);
  }

  lemma StepNewFragment(s: State, t: nat, a: Action)
    requires TokenInv(s) && Enabled(s, t, a) && a.NewFragment?
    ensures TokenInv(Apply(s, t, a))
  {
    var s' := Apply(s, t, a);
    assert s'.threads == s.threads[t := Idle];
    FragmentOutcomes(s, s', t, a.fragment, Idle);
    FragmentTokens(s, s', t, a.fragment, Idle);
  }

  lemma StepClaim(s: State, t: nat, a: Action)
    requires TokenInv(s) && Enabled(s, t, a) && a.Claim?
    ensures TokenInv(Apply(s, t, a))
  {
    var s' := Apply(s, t, a);
    if !s.fragments[a.fragment].claimed {
      FragmentOutcomes(s, s', t, a.fragment, s'.threads[t]);
      FragmentTokens(s, s', t, a.fragment, s'.threads[t]);
    }
  }

  lemma StepStore(s: State, t: nat, a: Action)
    requires TokenInv(s) && Enabled(s, t, a) && a.Store?
    ensures TokenInv(Apply(s, t, a))
  {
    var s' := Apply(s, t, a);
    var f := s.threads[t].fragment;
    assert SettlerOf(s.threads[t], f);
    FragmentOutcomes(s, s', t, f, s'.threads[t]);
    FragmentTokens(s, s', t, f, s'.threads[t]);
  }

  lemma CloseTokens(s: State, t: nat, a: Action)
    requires TokenInv(s) && Enabled(s, t, a) && a.Close?
    ensures var s' := Apply(s, t, a);
      TokensOwed(s'.threads, s'.fragments, s'.revisions) && Places(s'.threads, s'.fragments, s'.revisions, s'.pending)
  {
    var s' := Apply(s, t, a);
    var f := s.threads[t].fragment;
    assert forall r, token :: Waits(s'.fragments, r, token) <==> Waits(s.fragments, r, token) && token != Of(f);
    assert forall r, token :: Holds(s'.threads[t], r, token) <==> Waits(s.fragments, r, token) && token == Of(f);
    MovesOwed(s, s', t, s'.threads[t]);
    MovesPlaces(s, s', t, s'.threads[t]);
  }

  lemma StepClose(s: State, t: nat, a: Action)
    requires TokenInv(s) && Enabled(s, t, a) && a.Close?
    ensures TokenInv(Apply(s, t, a))
  {
    var s' := Apply(s, t, a);
    var f := s.threads[t].fragment;
    assert SettlerOf(s.threads[t], f);
    CloseTokens(s, t, a);
    FragmentOutcomes(s, s', t, f, s'.threads[t]);
  }

  lemma StepTakeWaiter(s: State, t: nat, a: Action)
    requires TokenInv(s) && Enabled(s, t, a) && a.TakeWaiter?
    ensures TokenInv(Apply(s, t, a))
  {
    var s' := Apply(s, t, a);
    Quiet(s, s', t, s'.threads[t]);
  }

  lemma AttachTokens(s: State, t: nat, a: Action)
    requires TokenInv(s) && Enabled(s, t, a) && a.Attach? && !s.fragments[a.fragment].closed
    ensures var s' := Apply(s, t, a);
      TokensOwed(s'.threads, s'.fragments, s'.revisions) && Places(s'.threads, s'.fragments, s'.revisions, s'.pending)
  {
    var s' := Apply(s, t, a);
    var q := s.threads[t].revision;
    assert Holds(s.threads[t], q, Of(a.fragment));
    assert forall r, token :: Waits(s'.fragments, r, token) <==> Waits(s.fragments, r, token) || (r == q && token == Of(a.fragment));
    forall r, token | Holds(s'.threads[t], r, token) ensures !Waits(s'.fragments, r, token) && Holds(s.threads[t], r, token) {
      assert OwedAndOut(s.fragments, s.revisions, r, token);
    }
    MovesOwed(s, s', t, s'.threads[t]);
    MovesPlaces(s, s', t, s'.threads[t]);
  }

  lemma StepAttach(s: State, t: nat, a: Action)
    requires TokenInv(s) && Enabled(s, t, a) && a.Attach?
    ensures TokenInv(Apply(s, t, a))
  {
    var s' := Apply(s, t, a);
    if s.fragments[a.fragment].closed {
      Quiet(s, s', t, s'.threads[t]);
    } else {
      AttachTokens(s, t, a);
      FragmentOutcomes(s, s', t, a.fragment, s'.threads[t]);
    }
  }

  /** A revision's count or flag changes; the fragments stay. */
  lemma FlagTokens(s: State, t: nat, a: Action)
    requires TokenInv(s) && Enabled(s, t, a) && a.Flag?
    ensures var s' := Apply(s, t, a);
      TokensOwed(s'.threads, s'.fragments, s'.revisions) && Places(s'.threads, s'.fragments, s'.revisions, s'.pending)
  {
    var s' := Apply(s, t, a);
    assert forall r, token :: Holds(s'.threads[t], r, token) <==> Holds(s.threads[t], r, token);
    forall r, token | Holds(s'.threads[t], r, token) ensures !Waits(s'.fragments, r, token) {
      assert OwedAndOut(s.fragments, s.revisions, r, token);
    }
    MovesOwed(s, s', t, s'.threads[t]);
    MovesPlaces(s, s', t, s'.threads[t]);
  }

  lemma FlagOutcomes(s: State, t: nat, a: Action)
    requires TokenInv(s) && Enabled(s, t, a) && a.Flag?
    ensures var s' := Apply(s, t, a); Outcomes(s'.threads, s'.fragments, s'.revisions)
  {
    var s' := Apply(s, t, a);
    var job := JobOf(s.threads[t]);
    var q := job.revision;
    assert Holds(s.threads[t], q, Of(job.fragment)) && OwedAndOut(s.fragments, s.revisions, q, Of(job.fragment));
    assert CountIsOwed(s.revisions[q]);
    assert forall r, g :: Noted(s.fragments, s.revisions, r, g) ==> Noted(s'.fragments, s'.revisions, r, g);
    forall r | r in s'.revisions && s'.revisions[r].failed ensures NamesFailed(s'.fragments, s'.revisions[r].slots) {
      if s.revisions[r].failed { assert NamesFailed(s.fragments, s.revisions[r].slots); }
      else { assert job.fragment in Distinct(s'.revisions[r].slots); }
    }
    forall u | u in s.threads ensures JobNoted(s'.fragments, s'.revisions, JobOf(s'.threads[u])) {
      if u != t { assert JobNoted(s.fragments, s.revisions, JobOf(s.threads[u])); }
    }
  }

  lemma StepFlag(s: State, t: nat, a: Action)
    requires TokenInv(s) && Enabled(s, t, a) && a.Flag?
    ensures TokenInv(Apply(s, t, a))
  {
    var s' := Apply(s, t, a);
    FlagTokens(s, t, a);
    FlagOutcomes(s, t, a);
    assert forall f :: SettlerOf(s'.threads[t], f) <==> SettlerOf(s.threads[t], f);
  }

  lemma CountTokens(s: State, t: nat, a: Action)
    requires TokenInv(s) && Enabled(s, t, a) && a.CountDown?
    ensures var s' := Apply(s, t, a); TokensOwed(s'.threads, s'.fragments, s'.revisions)
  {
    var s' := Apply(s, t, a);
    var job := JobOf(s.threads[t]);
    assert Holds(s.threads[t], job.revision, job.token);
    assert OwedAndOut(s.fragments, s.revisions, job.revision, job.token);
    assert forall r, token :: Holds(s'.threads[t], r, token) ==> Holds(s.threads[t], r, token) && (r != job.revision || token != job.token);
    forall u, r, token | u in s.threads && Holds(s'.threads[u], r, token) ensures OwedAndOut(s'.fragments, s'.revisions, r, token) {
      assert Holds(s.threads[u], r, token);
      assert OwedAndOut(s.fragments, s.revisions, r, token);
    }
  }

  lemma CountPlaces(s: State, t: nat, a: Action)
    requires TokenInv(s) && Enabled(s, t, a) && a.CountDown?
    ensures var s' := Apply(s, t, a); Places(s'.threads, s'.fragments, s'.revisions, s'.pending)
  {
    var s' := Apply(s, t, a);
    var job := JobOf(s.threads[t]);
    forall r, token | r in s'.pending && r in s'.revisions && token in s'.revisions[r].owed
      ensures Waits(s'.fragments, r, token) || SomeoneHolds(s'.threads, r, token)
    {
      assert token in s.revisions[r].owed;
      assert Waits(s.fragments, r, token) || SomeoneHolds(s.threads, r, token);
      if !Waits(s.fragments, r, token) {
        var u :| u in s.threads && Holds(s.threads[u], r, token);
        assert Holds(s'.threads[u], r, token);
      }
    }
  }

  lemma CountOutcomes(s: State, t: nat, a: Action)
    requires TokenInv(s) && Enabled(s, t, a) && a.CountDown?
    ensures var s' := Apply(s, t, a); Outcomes(s'.threads, s'.fragments, s'.revisions)
  {
    var s' := Apply(s, t, a);
    var job := JobOf(s.threads[t]);
    assert JobNoted(s.fragments, s.revisions, job);
    assert forall r, g :: Noted(s.fragments, s.revisions, r, g) <==> Noted(s'.fragments, s'.revisions, r, g);
    forall u | u in s.threads ensures JobNoted(s'.fragments, s'.revisions, JobOf(s'.threads[u])) {
      if u != t { assert JobNoted(s.fragments, s.revisions, JobOf(s.threads[u])); }
    }
    forall r, g | r in s'.revisions && g in Distinct(s'.revisions[r].slots) && Of(g) !in s'.revisions[r].owed
      ensures Noted(s'.fragments, s'.revisions, r, g)
    {
      if Of(g) !in s.revisions[r].owed { assert Noted(s.fragments, s.revisions, r, g); }
    }
  }

  lemma StepCountDown(s: State, t: nat, a: Action)
    requires TokenInv(s) && Enabled(s, t, a) && a.CountDown?
    ensures TokenInv(Apply(s, t, a))
  {
    var s' := Apply(s, t, a);
    var job := JobOf(s.threads[t]);
    assert Holds(s.threads[t], job.revision, job.token) && OwedAndOut(s.fragments, s.revisions, job.revision, job.token);
    assert CountIsOwed(s.revisions[job.revision]);
    CountTokens(s, t, a);
    CountPlaces(s, t, a);
    CountOutcomes(s, t, a);
    assert forall f :: SettlerOf(s'.threads[t], f) <==> SettlerOf(s.threads[t], f);
  }

  // ---- sealing ----

  lemma {:induction false} TokensSize(fs: set<nat>)
    ensures |Tokens(fs)| == |fs|
  {
    if fs != {} {
      var f :| f in fs;
      TokensSize(fs - {f});
      assert Tokens(fs) == Tokens(fs - {f}) + {Of(f)};
    }
  }

  /** Revisions are named by their sequences, from 1. */
  ghost predicate Numbered(keys: set<nat>, pending: set<nat>, latest: nat, published: nat) {
    && (forall r :: r in keys ==> 1 <= r <= latest)
    && pending <= keys
    && (forall r :: r in pending ==> published < r)
    && published <= latest
  }

  ghost predicate Sequenced(s: State) {
    0 in s.threads && Numbered(s.revisions.Keys, s.pending, s.latestSequence, s.publishedSequence)
  }

  lemma SealOwed(s: State, a: Action)
    requires TokenInv(s) && Sequenced(s) && Enabled(s, 0, a) && a.Seal? && Sealable(s, a.base, a.slots)
    ensures var s' := Apply(s, 0, a); TokensOwed(s'.threads, s'.fragments, s'.revisions)
  {
    var s', q := Apply(s, 0, a), s.latestSequence + 1;
    var owed := s'.revisions[q].owed;
    var pc := s'.threads[0];
    forall r, token | Holds(pc, r, token) ensures r == q && OwedAndOut(s'.fragments, s'.revisions, r, token) {}
    forall u, r, token | u in s.threads && u != 0 && Holds(s.threads[u], r, token)
      ensures r != q && OwedAndOut(s'.fragments, s'.revisions, r, token)
    {
      assert OwedAndOut(s.fragments, s.revisions, r, token);
    }
  }

  lemma SealPlaces(s: State, a: Action)
    requires TokenInv(s) && Sequenced(s) && Enabled(s, 0, a) && a.Seal? && Sealable(s, a.base, a.slots)
    ensures var s' := Apply(s, 0, a); Places(s'.threads, s'.fragments, s'.revisions, s'.pending)
  {
    var s', q := Apply(s, 0, a), s.latestSequence + 1;
    forall r, token | r in s'.pending && r in s'.revisions && token in s'.revisions[r].owed
      ensures Waits(s'.fragments, r, token) || SomeoneHolds(s'.threads, r, token)
    {
      if r == q {
        assert Holds(s'.threads[0], r, token);
      } else if !Waits(s.fragments, r, token) {
        assert SomeoneHolds(s.threads, r, token);
        var u :| u in s.threads && Holds(s.threads[u], r, token);
        assert Holds(s'.threads[u], r, token);
      }
    }
  }

  lemma SealOutcomes(s: State, a: Action)
    requires TokenInv(s) && Sequenced(s) && Enabled(s, 0, a) && a.Seal? && Sealable(s, a.base, a.slots)
    ensures var s' := Apply(s, 0, a); Outcomes(s'.threads, s'.fragments, s'.revisions)
  {
    var s', q := Apply(s, 0, a), s.latestSequence + 1;
    forall r, g | Noted(s.fragments, s.revisions, r, g) ensures Noted(s'.fragments, s'.revisions, r, g) { assert r != q; }
    forall u | u in s.threads ensures JobNoted(s'.fragments, s'.revisions, JobOf(s'.threads[u])) {
      if u != 0 { assert JobNoted(s.fragments, s.revisions, JobOf(s.threads[u])); }
    }
    forall r, g | r in s'.revisions && g in Distinct(s'.revisions[r].slots) && Of(g) !in s'.revisions[r].owed
      ensures Noted(s'.fragments, s'.revisions, r, g)
    {
      assert r != q;
      assert Noted(s.fragments, s.revisions, r, g);
    }
  }

  lemma StepSeal(s: State, a: Action)
    requires TokenInv(s) && Sequenced(s) && Enabled(s, 0, a) && a.Seal?
    ensures TokenInv(Apply(s, 0, a))
  {
    if Sealable(s, a.base, a.slots) {
      var s', q := Apply(s, 0, a), s.latestSequence + 1;
      SealOwed(s, a);
      SealPlaces(s, a);
      SealOutcomes(s, a);
      TokensSize(Distinct(a.slots));
      assert CountIsOwed(s'.revisions[q]);
      SealSettling(s, a);
    }
  }

  lemma SealSettling(s: State, a: Action)
    requires TokenInv(s) && Enabled(s, 0, a) && a.Seal? && Sealable(s, a.base, a.slots)
    ensures Settling(Apply(s, 0, a).threads, s.fragments)
  {
    assert forall f :: !SettlerOf(Apply(s, 0, a).threads[0], f);
  }

  /** The coordinator's steps that touch no token, and the frame's. */
  lemma StepCoordinator(s: State, t: nat, a: Action)
    requires TokenInv(s) && Sequenced(s) && Enabled(s, t, a)
    requires a.Collect? || a.TakeBack? || a.Announce? || a.Select?
    ensures TokenInv(Apply(s, t, a))
  {
    var s' := Apply(s, t, a);
    if a.Select? {
      assert s'.threads == s.threads[t := s.threads[t]];
      Quiet(s, s', t, s.threads[t]);
    } else {
      CoordinatorQuiet(s, s', s'.threads[0]);
    }
  }

  lemma CoordinatorQuiet(s: State, s': State, pc: Pc)
    requires TokenInv(s) && Sequenced(s) && s'.threads == s.threads[0 := pc]
    requires s'.fragments == s.fragments && s'.revisions == s.revisions && s'.pending <= s.pending
    requires pc.Collecting? || pc.TakingBack? || pc.Announcing? || pc == Idle
    requires s.threads[0] == Idle || s.threads[0].Collecting? || s.threads[0].TakingBack? || s.threads[0].Announcing?
    ensures TokenInv(s')
  {
    Quiet(s, s', 0, pc);
  }

  lemma StepTakeCompleted(s: State, a: Action)
    requires TokenInv(s) && Sequenced(s) && Enabled(s, 0, a) && a.TakeCompleted?
    ensures TokenInv(Apply(s, 0, a))
  {
    var s' := Apply(s, 0, a);
    assert s'.fragments == s.fragments && s'.revisions == s.revisions && s'.pending <= s.pending;
    assert s'.threads == s.threads[0 := s'.threads[0]];
    CoordinatorQuiet(s, s', s'.threads[0]);
  }

  lemma EndCollectFrame(s: State, a: Action)
    requires Enabled(s, 0, a) && a.EndCollect?
    ensures var s' := Apply(s, 0, a);
      && s'.fragments == s.fragments && s'.revisions == s.revisions && s'.pending <= s.pending
      && s'.threads == s.threads[0 := s'.threads[0]] && (s'.threads[0] == Idle || s'.threads[0].TakingBack?)
  {}

  lemma StepEndCollect(s: State, s': State, a: Action)
    requires TokenInv(s) && Sequenced(s) && Enabled(s, 0, a) && a.EndCollect? && s' == Apply(s, 0, a)
    ensures TokenInv(s')
  {
    EndCollectFrame(s, a);
    CoordinatorQuiet(s, s', s'.threads[0]);
  }

  lemma StepJobEnds(s: State, t: nat, a: Action)
    requires TokenInv(s) && Sequenced(s) && Enabled(s, t, a) && (a.EndWalk? || a.PushCompleted? || a.OwnCount? || a.EndSeal?)
    ensures TokenInv(Apply(s, t, a))
  {
    var s' := Apply(s, t, a);
    Quiet(s, s', t, s'.threads[t]);
  }

  lemma StepTokens(s: State, t: nat, a: Action)
    requires TokenInv(s) && Sequenced(s) && Enabled(s, t, a)
    ensures TokenInv(Apply(s, t, a))
  {
    match a
    case NewFragment(_, _) => StepNewFragment(s, t, a);
    case Claim(_, _) => StepClaim(s, t, a);
    case Store => StepStore(s, t, a);
    case Close => StepClose(s, t, a);
    case TakeWaiter(_, _) => StepTakeWaiter(s, t, a);
    case Flag => StepFlag(s, t, a);
    case CountDown => StepCountDown(s, t, a);
    case Seal(_, _) => StepSeal(s, a);
    case Attach(_) => StepAttach(s, t, a);
    case EndWalk => StepJobEnds(s, t, a);
    case PushCompleted => StepJobEnds(s, t, a);
    case OwnCount => StepJobEnds(s, t, a);
    case EndSeal => StepJobEnds(s, t, a);
    case TakeCompleted(_) => StepTakeCompleted(s, a);
    case EndCollect => StepEndCollect(s, Apply(s, 0, a), a);
    case _ => StepCoordinator(s, t, a);
  }
}
