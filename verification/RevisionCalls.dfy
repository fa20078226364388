/** Revision assembly, seen from the calls made so far (include/ORGModuleServices/Async/RevisionAssembly.h): what a fragment requires
    and how it settles, which drafts are sealed, and what the frame selects. */
module RevisionCalls {
  import opened RevisionAssembly
  import opened RevisionTokens
  import opened RevisionCoordinator
  import opened RevisionRun

  // ---- fragments ----

  /** Step j made the fragment with these requirements. */
  predicate Makes(steps: seq<Step>, j: int, f: nat, requirements: seq<Requirement>) {
    0 <= j < |steps| && steps[j].action == NewFragment(f, requirements)
  }

  lemma StepFragment(s: State, t: nat, a: Action, f: nat)
    requires Enabled(s, t, a)
    ensures f in Apply(s, t, a).fragments <==> f in s.fragments || (a.NewFragment? && a.fragment == f)
    ensures f in s.fragments ==> Apply(s, t, a).fragments[f].requirements == s.fragments[f].requirements
    ensures a.NewFragment? && a.fragment == f ==> Apply(s, t, a).fragments[f] == Fragment(a.requirements, false, Pending, false, {})
  {}

  lemma NextFragment(run: seq<State>, steps: seq<Step>, n: nat, f: nat)
    requires IsRun(run, steps) && n < |steps|
    ensures var a := steps[n].action;
      && (f in run[n + 1].fragments <==> f in run[n].fragments || (a.NewFragment? && a.fragment == f))
      && (f in run[n].fragments ==> run[n + 1].fragments[f].requirements == run[n].fragments[f].requirements)
      && (a.NewFragment? && a.fragment == f ==> f !in run[n].fragments && run[n + 1].fragments[f].requirements == a.requirements)
  {
    StepFragment(run[n], steps[n].thread, steps[n].action, f);
  }

  /** A fragment keeps the requirements it was made with. */
  lemma {:induction false} RequirementsStay(run: seq<State>, steps: seq<Step>, j: nat, n: nat, f: nat, requirements: seq<Requirement>)
    requires IsRun(run, steps) && j < n < |run| && Makes(steps, j, f, requirements)
    ensures f in run[n].fragments && run[n].fragments[f].requirements == requirements
    decreases n
  {
    if j + 1 < n { RequirementsStay(run, steps, j, n - 1, f, requirements); }
    NextFragment(run, steps, n - 1, f);
  }

  lemma {:induction false} MadeAt(run: seq<State>, steps: seq<Step>, n: nat, f: nat) returns (j: nat)
    requires IsRun(run, steps) && n < |run| && f in run[n].fragments
    ensures j < n && Makes(steps, j, f, run[n].fragments[f].requirements)
  {
    NextFragment(run, steps, n - 1, f);
    if f in run[n - 1].fragments { j := MadeAt(run, steps, n - 1, f); } else { j := n - 1; }
  }

  /** How the first settlement of the fragment among the first n steps goes. */
  function FirstSettlement(steps: seq<Step>, n: nat, f: nat): FragmentState
    requires n <= |steps|
  {
    if n == 0 then Pending
    else if FirstSettlement(steps, n - 1, f) != Pending then FirstSettlement(steps, n - 1, f)
    else match steps[n - 1].action
      case Claim(g, ok) => if g == f then Outcome(ok) else Pending
      case _ => Pending
  }

  /** The fragment is, or is about to be, what its first settlement made it. */
  ghost predicate AsSettled(s: State, f: nat, first: FragmentState) {
    && f in s.fragments
    && (s.fragments[f].claimed <==> first != Pending)
    && (s.fragments[f].state != Pending ==> s.fragments[f].state == first)
    && (forall t :: t in s.threads && s.threads[t].Claimed? && s.threads[t].fragment == f ==> first == Outcome(s.threads[t].ok))
  }

  function Outcome(ok: bool): FragmentState {
    if ok then Ready else Failed
  }

  lemma ClaimSettles(s: State, t: nat, g: nat, ok: bool, f: nat, first: FragmentState)
    requires Enabled(s, t, Claim(g, ok)) && AsSettled(s, f, first)
    ensures AsSettled(Apply(s, t, Claim(g, ok)), f, if first == Pending && g == f then Outcome(ok) else first)
  {}

  lemma StoreSettles(s: State, t: nat, f: nat, first: FragmentState)
    requires Enabled(s, t, Store) && AsSettled(s, f, first)
    ensures AsSettled(Apply(s, t, Store), f, first)
  {}

  lemma OtherSettles(s: State, t: nat, a: Action, f: nat, first: FragmentState)
    requires Enabled(s, t, a) && !a.Claim? && !a.Store? && AsSettled(s, f, first)
    ensures AsSettled(Apply(s, t, a), f, first)
  {
    var s' := Apply(s, t, a);
    assert s'.fragments[f].claimed == s.fragments[f].claimed && s'.fragments[f].state == s.fragments[f].state;
    assert forall u :: u in s'.threads && s'.threads[u].Claimed? ==> u in s.threads && s'.threads[u] == s.threads[u];
  }

  lemma StepSettles(s: State, t: nat, a: Action, f: nat, first: FragmentState)
    requires Enabled(s, t, a) && AsSettled(s, f, first)
    ensures AsSettled(Apply(s, t, a), f, if first == Pending && a.Claim? && a.fragment == f then Outcome(a.ok) else first)
  {
    match a
    case Claim(g, ok) => ClaimSettles(s, t, g, ok, f, first);
    case Store => StoreSettles(s, t, f, first);
    case _ => OtherSettles(s, t, a, f, first);
  }

  lemma NextSettles(run: seq<State>, steps: seq<Step>, n: nat, f: nat)
    requires IsRun(run, steps) && n < |steps| && AsSettled(run[n], f, FirstSettlement(steps, n, f))
    ensures AsSettled(run[n + 1], f, FirstSettlement(steps, n + 1, f))
  {
    StepSettles(run[n], steps[n].thread, steps[n].action, f, FirstSettlement(steps, n, f));
  }

  /** Whatever settlements raced, a fragment ends as the first of them said. */
  lemma {:induction false} SettlesAsFirst(run: seq<State>, steps: seq<Step>, n: nat, f: nat)
    requires IsRun(run, steps) && n < |run| && f in run[n].fragments
    ensures AsSettled(run[n], f, FirstSettlement(steps, n, f))
  {
    NextFragment(run, steps, n - 1, f);
    if f in run[n - 1].fragments {
      SettlesAsFirst(run, steps, n - 1, f);
      NextSettles(run, steps, n - 1, f);
    } else {
      NotSettledYet(run, steps, n - 1, f);
      RunInv(run, steps, n - 1);
      NewIsUnsettled(run[n - 1], steps[n - 1].thread, steps[n - 1].action, f);
    }
  }

  /** Nothing settles a fragment before it is made. */
  lemma {:induction false} NotSettledYet(run: seq<State>, steps: seq<Step>, n: nat, f: nat)
    requires IsRun(run, steps) && n < |run| && f !in run[n].fragments
    ensures FirstSettlement(steps, n, f) == Pending
  {
    if n > 0 {
      NextFragment(run, steps, n - 1, f);
      ClaimsWhatIs(run, steps, n - 1, f);
      NotSettledYet(run, steps, n - 1, f);
    }
  }

  lemma ClaimsWhatIs(run: seq<State>, steps: seq<Step>, n: nat, f: nat)
    requires IsRun(run, steps) && n < |steps| && f !in run[n].fragments
    ensures !(steps[n].action.Claim? && steps[n].action.fragment == f)
  {}

  lemma NewIsUnsettled(s: State, t: nat, a: Action, f: nat)
    requires Settling(s.threads, s.fragments) && Enabled(s, t, a) && f !in s.fragments && a.NewFragment? && a.fragment == f
    ensures AsSettled(Apply(s, t, a), f, Pending)
  {
    forall u | u in s.threads ensures !(s.threads[u].Claimed? && s.threads[u].fragment == f) {
      assert SettlerState(s.fragments, s.threads[u]);
    }
  }

  /** A completed revision failed exactly when the first settlement of one of its fragments failed. */
  lemma FailsExactly(run: seq<State>, steps: seq<Step>, n: nat, r: nat)
    requires IsRun(run, steps) && n < |run| && r in run[n].completions
    ensures r in run[n].revisions
    ensures run[n].revisions[r].failed <==>
      exists f :: f in Distinct(run[n].revisions[r].slots) && FirstSettlement(steps, n, f) == Failed
  {
    RunInv(run, steps, n);
    var s := run[n];
    CompletesAtMostOnce(run, steps, n);
    forall f | f in Distinct(s.revisions[r].slots) ensures f in s.fragments && s.fragments[f].state == FirstSettlement(steps, n, f) {
      assert PastStore(s.fragments, f);
      SettlesAsFirst(run, steps, n, f);
    }
    CompletedNoted(s, r);
  }

  lemma CompletedNoted(s: State, r: nat)
    requires Inv(s) && r in s.completions
    ensures r in s.revisions && (s.revisions[r].failed <==> NamesFailed(s.fragments, s.revisions[r].slots))
  {
    if NamesFailed(s.fragments, s.revisions[r].slots) {
      var f :| f in Distinct(s.revisions[r].slots) && f in s.fragments && s.fragments[f].state == Failed;
      assert Noted(s.fragments, s.revisions, r, f);
    }
  }

  // ---- seals ----

  /** A fragment was made with this requirement before step n. */
  predicate Requires(steps: seq<Step>, n: nat, f: nat, q: Requirement)
    requires n <= |steps|
  {
    exists j :: 0 <= j < n && steps[j].action.NewFragment? && steps[j].action.fragment == f && q in steps[j].action.requirements
  }

  /** Each requirement the slots' fragments were made with is exactly in its slot. */
  ghost predicate Closed(steps: seq<Step>, n: nat, slots: seq<Slot>)
    requires n <= |steps|
  {
    forall f, q :: f in Distinct(slots) && Requires(steps, n, f, q) ==> q.slot < |slots| && slots[q.slot] == q.fragment
  }

  lemma ClosureFromCalls(run: seq<State>, steps: seq<Step>, n: nat, slots: seq<Slot>)
    requires IsRun(run, steps) && n < |run| && Distinct(slots) <= run[n].fragments.Keys
    ensures Closure(run[n].fragments, slots) <==> Closed(steps, n, slots)
  {
    var fragments := run[n].fragments;
    forall f, q | f in Distinct(slots) ensures Requires(steps, n, f, q) <==> q in fragments[f].requirements {
      RequiresIs(run, steps, n, f, q);
    }
    if Closed(steps, n, slots) {
      forall f, k | f in Distinct(slots) && f in fragments && 0 <= k < |fragments[f].requirements|
        ensures var q := fragments[f].requirements[k]; q.slot < |slots| && slots[q.slot] == q.fragment
      {
        assert fragments[f].requirements[k] in fragments[f].requirements;
      }
    }
  }

  lemma RequiresIs(run: seq<State>, steps: seq<Step>, n: nat, f: nat, q: Requirement)
    requires IsRun(run, steps) && n < |run| && f in run[n].fragments
    ensures Requires(steps, n, f, q) <==> q in run[n].fragments[f].requirements
  {
    var j := MadeAt(run, steps, n, f);
    if Requires(steps, n, f, q) {
      var i :| 0 <= i < n && steps[i].action.NewFragment? && steps[i].action.fragment == f && q in steps[i].action.requirements;
      assert Makes(steps, i, f, steps[i].action.requirements);
      RequirementsStay(run, steps, i, n, f, steps[i].action.requirements);
    }
  }

  /** A seal took the draft: it is the newest revision now. */
  predicate IsSealed(s: State, s': State, base: nat, slots: seq<Slot>) {
    && s'.latestSequence == base + 1 == s.latestSequence + 1 && s'.latest == slots
    && base + 1 in s'.revisions && s'.revisions[base + 1].slots == slots && base + 1 in s'.pending
  }

  /** A draft is sealed exactly when it was begun from the newest revision and its closure is whole; else nothing changes. */
  lemma SealsExactly(run: seq<State>, steps: seq<Step>, i: nat)
    requires IsRun(run, steps) && i < |steps| && steps[i].action.Seal?
    ensures var base, slots := steps[i].action.base, steps[i].action.slots;
      if base == run[i].latestSequence && Closed(steps, i, slots) then IsSealed(run[i], run[i + 1], base, slots) else run[i + 1] == run[i]
  {
    ClosureFromCalls(run, steps, i, steps[i].action.slots);
  }

  lemma {:induction false} LatestGrows(run: seq<State>, steps: seq<Step>, i: nat, j: nat)
    requires IsRun(run, steps) && i <= j < |run|
    ensures run[i].latestSequence <= run[j].latestSequence
    decreases j
  {
    if i < j { LatestGrows(run, steps, i, j - 1); }
  }

  /** Of two drafts begun from one revision only one is sealed: no edit is lost to another. */
  lemma OneSealPerBase(run: seq<State>, steps: seq<Step>, i: nat, j: nat)
    requires IsRun(run, steps) && i < j < |steps| && steps[i].action.Seal? && steps[j].action.Seal?
    requires steps[i].action.base == steps[j].action.base && run[i + 1] != run[i]
    ensures run[j + 1] == run[j]
  {
    SealsExactly(run, steps, i);
    LatestGrows(run, steps, i + 1, j);
    SealsExactly(run, steps, j);
  }

  lemma StepSlots(s: State, t: nat, a: Action, r: nat)
    requires Enabled(s, t, a) && Sequenced(s) && r in Apply(s, t, a).revisions
    ensures r in s.revisions ==> Apply(s, t, a).revisions[r].slots == s.revisions[r].slots
    ensures r !in s.revisions ==> r > 0 && a == Seal(r - 1, Apply(s, t, a).revisions[r].slots)
  {}

  lemma NextSlots(run: seq<State>, steps: seq<Step>, n: nat, r: nat)
    requires IsRun(run, steps) && n < |steps| && r in run[n + 1].revisions
    ensures r in run[n].revisions ==> run[n + 1].revisions[r].slots == run[n].revisions[r].slots
    ensures r !in run[n].revisions ==> r > 0 && steps[n].action == Seal(r - 1, run[n + 1].revisions[r].slots)
  {
    RunInv(run, steps, n);
    StepSlots(run[n], steps[n].thread, steps[n].action, r);
  }

  /** A revision holds the slots of the draft it was sealed from. */
  lemma {:induction false} SealedAt(run: seq<State>, steps: seq<Step>, n: nat, r: nat) returns (i: nat)
    requires IsRun(run, steps) && n < |run| && r in run[n].revisions
    ensures i < n && r > 0 && steps[i].action == Seal(r - 1, run[n].revisions[r].slots)
  {
    NextSlots(run, steps, n - 1, r);
    if r in run[n - 1].revisions { i := SealedAt(run, steps, n - 1, r); } else { i := n - 1; }
  }

  /** What the frame selects is a draft that was sealed, whose fragments' first settlements all succeeded and whose closure, as its
      fragments were made, is whole. */
  lemma SelectedAsSealed(run: seq<State>, steps: seq<Step>, n: nat, r: nat) returns (i: nat)
    requires IsRun(run, steps) && n < |run| && r in run[n].selected
    ensures i < n && r > 0 && r in run[n].revisions && steps[i].action == Seal(r - 1, run[n].revisions[r].slots)
    ensures Closed(steps, n, run[n].revisions[r].slots)
    ensures forall f :: f in Distinct(run[n].revisions[r].slots) ==> FirstSettlement(steps, n, f) == Ready
  {
    SelectedIsCoherent(run, steps, n, r);
    i := SealedAt(run, steps, n, r);
    ClosureFromCalls(run, steps, n, run[n].revisions[r].slots);
    forall f | f in Distinct(run[n].revisions[r].slots) ensures FirstSettlement(steps, n, f) == Ready {
      SettlesAsFirst(run, steps, n, f);
    }
  }

  // ---- nobody waits for anybody ----

  lemma JobMoves(s: State, t: nat)
    requires Inv(s) && t in s.threads && JobOf(s.threads[t]) != NoJob
    ensures Enabled(s, t, match JobOf(s.threads[t]) case Flagging(_, _) => Flag case Counting(_, _) => CountDown case _ => PushCompleted)
  {
    var pc := s.threads[t];
    match JobOf(pc)
    case Flagging(r, f) =>
      assert Holds(pc, r, Of(f)) && OwedAndOut(s.fragments, s.revisions, r, Of(f));
      assert JobNoted(s.fragments, s.revisions, JobOf(pc));
    case Counting(r, token) =>
      assert Holds(pc, r, token) && OwedAndOut(s.fragments, s.revisions, r, token);
    case _ =>
  }

  lemma SealingMoves(s: State, t: nat) returns (a: Action)
    requires Inv(s) && t in s.threads && s.threads[t].Sealing? && s.threads[t].job == NoJob
    ensures Enabled(s, t, a)
  {
    var pc := s.threads[t];
    assert Local(t, pc);
    if f :| f in pc.todo {
      a := Attach(f);
      assert Holds(pc, pc.revision, Of(f)) && OwedAndOut(s.fragments, s.revisions, pc.revision, Of(f));
      assert CountIsOwed(s.revisions[pc.revision]);
    } else {
      a := if pc.own then OwnCount else EndSeal;
    }
  }

  /** A thread inside the protocol always has a step of its own. */
  lemma NeverStuck(run: seq<State>, steps: seq<Step>, i: nat, t: nat) returns (a: Action)
    requires IsRun(run, steps) && i < |run| && t in run[i].threads && run[i].threads[t] != Idle
    ensures Enabled(run[i], t, a)
  {
    RunInv(run, steps, i);
    var s, pc := run[i], run[i].threads[t];
    assert Local(t, pc) && SettlerState(s.fragments, pc);
    if JobOf(pc) != NoJob {
      JobMoves(s, t);
      a := match JobOf(pc) case Flagging(_, _) => Flag case Counting(_, _) => CountDown case _ => PushCompleted;
      return;
    }
    match pc
    case Claimed(_, _) => a := Store;
    case Stored(_) => a := Close;
    case Walking(_, list, _) =>
      if r :| r in list { a := TakeWaiter(r, true); } else { a := EndWalk; }
    case Sealing(_, _, _, _) => a := SealingMoves(s, t);
    case Collecting(list, _) =>
      if r :| r in list { a := TakeCompleted(r); } else { a := EndCollect; }
    case TakingBack(_) => a := TakeBack;
    case Announcing(_) => a := Announce;
  }

  function JobLeft(job: Job): nat {
    match job
    case NoJob => 0
    case Pushing(_) => 1
    case Counting(_, _) => 2
    case Flagging(_, _) => 3
  }

  /** How far inside its call a thread is, and how many steps of that part are left. */
  function Part(pc: Pc): nat {
    match pc
    case Idle => 0
    case Claimed(_, _) => 3
    case Stored(_) => 2
    case _ => 1
  }

  function Left(pc: Pc): nat {
    match pc
    case Walking(_, list, job) => 1 + 4 * |list| + JobLeft(job)
    case Sealing(_, todo, own, job) => 1 + 4 * |todo| + JobLeft(job) + if own then 3 else 0
    case Collecting(list, _) => 3 + |list|
    case TakingBack(_) => 2
    case Announcing(_) => 1
    case _ => 0
  }

  lemma Smaller(a: set<nat>, x: nat)
    requires x in a
    ensures |a - {x}| < |a|
  {}

  predicate Nearer(former: Pc, pc: Pc) {
    Part(pc) < Part(former) || (Part(pc) == Part(former) && Left(pc) < Left(former))
  }

  lemma TakesNearer(s: State, t: nat, a: Action)
    requires Enabled(s, t, a) && s.threads[t] != Idle && (a.TakeWaiter? || a.Attach? || a.TakeCompleted?)
    ensures t in Apply(s, t, a).threads && Nearer(s.threads[t], Apply(s, t, a).threads[t])
  {
    match a
    case TakeWaiter(r, _) => Smaller(s.threads[t].list, r);
    case Attach(f) => Smaller(s.threads[t].todo, f);
    case TakeCompleted(r) => Smaller(s.threads[t].list, r);
  }

  lemma JobNearer(s: State, t: nat, a: Action)
    requires Enabled(s, t, a) && s.threads[t] != Idle && (a.Flag? || a.CountDown? || a.PushCompleted?)
    ensures t in Apply(s, t, a).threads && Nearer(s.threads[t], Apply(s, t, a).threads[t])
  {}

  /** And each step of its own brings it nearer its end, while nobody else's moves it: a call never waits for another. */
  lemma OwnStepsEnd(s: State, u: nat, a: Action, t: nat)
    requires Enabled(s, u, a) && t in s.threads && (s.threads[t] == Idle ==> u != t)
    ensures t in Apply(s, u, a).threads
    ensures if u == t && !a.Select? then Nearer(s.threads[t], Apply(s, u, a).threads[t]) else Apply(s, u, a).threads[t] == s.threads[t]
  {
    if u == t {
      if a.TakeWaiter? || a.Attach? || a.TakeCompleted? {
        TakesNearer(s, t, a);
      } else if a.Flag? || a.CountDown? || a.PushCompleted? {
        JobNearer(s, t, a);
      }
    }
  }
}
