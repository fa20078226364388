/** Revision assembly (include/ORGModuleServices/Async/RevisionAssembly.h): a revision names one fragment a slot and is handed to
    the frame once all of them are ready. Thread 0 is the coordinator (Seal, Collect); every other thread settles fragments; the
    frame selects. Each action is one atomic operation of the source, or coordinator-local work between two of them.

    A revision is named by its sequence. A list (waiters, completed, pending) is a set: the order it is walked in is left open.
    The weak pointer a waiter holds locks whenever the revision is pending; else it may or may not. The hand-over to the frame
    is the exchange's two visible steps (PublicationExchange shows `TryReplace` cannot fail). */
module RevisionAssembly {

  datatype Slot = Nothing | Names(fragment: nat)
  datatype Requirement = Requirement(slot: nat, fragment: Slot)
  datatype FragmentState = Pending | Ready | Failed

  datatype Fragment = Fragment(
    requirements: seq<Requirement>,
    claimed: bool,
    state: FragmentState,
    closed: bool,            // the waiter list was exchanged for `Closed`
    waiters: set<nat>)       // the revisions waiting on it

  /** One unit of a revision's count: the seal's own, or one distinct fragment's. */
  datatype Token = OfSeal | Of(fragment: nat)

  datatype Revision = Revision(
    slots: seq<Slot>,
    remaining: int,
    failed: bool,
    owed: set<Token>)        // history: the tokens not counted down yet

  /** What a thread is doing to one revision (SettleWaiter, CountDown). */
  datatype Job =
    | NoJob
    | Flagging(revision: nat, fragment: nat)   // about to mark it failed if the fragment is
    | Counting(revision: nat, token: Token)    // about to count down
    | Pushing(revision: nat)                   // counted to zero: about to push it on the completion stack

  datatype Pc =
    | Idle
    | Claimed(fragment: nat, ok: bool)                             // Settle: about to store the state
    | Stored(fragment: nat)                                        // about to close the waiter list
    | Walking(fragment: nat, list: set<nat>, job: Job)             // settling the waiters taken
    | Sealing(revision: nat, todo: set<nat>, own: bool, job: Job)  // Seal: attaching, then its own count
    | Collecting(list: set<nat>, newest: Slot)                     // Collect: `newest` names a revision
    | TakingBack(revision: nat)                                    // handing over: about to take back an unselected one
    | Announcing(revision: nat)                                    // about to make this one selectable

  datatype Fate = Published | FailedRevision | Superseded | Abandoned

  datatype Stats = Stats(sealed: nat, published: nat, failed: nat, superseded: nat, abandoned: nat)

  datatype State = State(
    fragments: map<nat, Fragment>,
    revisions: map<nat, Revision>,
    completed: set<nat>,           // the completion stack
    threads: map<nat, Pc>,
    latest: seq<Slot>,
    latestSequence: nat,
    publishedSequence: nat,
    pending: set<nat>,
    stats: Stats,
    ready: Slot,                   // the revision the frame may select
    completions: seq<nat>,         // history: completions, in order
    fates: map<nat, Fate>,         // history: what Collect made of each revision
    selected: seq<nat>)            // history: the revisions the frame selected, in order

  datatype Action =
    | NewFragment(fragment: nat, requirements: seq<Requirement>)
    | Claim(fragment: nat, ok: bool)
    | Store
    | Close
    | TakeWaiter(revision: nat, locked: bool)
    | EndWalk
    | Flag
    | CountDown
    | PushCompleted
    | Seal(base: nat, slots: seq<Slot>)
    | Attach(fragment: nat)
    | OwnCount
    | EndSeal
    | Collect
    | TakeCompleted(revision: nat)
    | EndCollect
    | TakeBack
    | Announce
    | Select(accept: bool)

  predicate Init(s: State) {
    && s.fragments == map[] && s.revisions == map[] && s.completed == {} && s.pending == {}
    && 0 in s.threads && (forall t :: t in s.threads ==> s.threads[t] == Idle)
    && (forall i :: 0 <= i < |s.latest| ==> s.latest[i] == Nothing)
    && s.latestSequence == 0 && s.publishedSequence == 0 && s.stats == Stats(0, 0, 0, 0, 0)
    && s.ready == Nothing && s.completions == [] && s.fates == map[] && s.selected == []
  }

  function JobOf(pc: Pc): Job {
    match pc
    case Walking(_, _, job) => job
    case Sealing(_, _, _, job) => job
    case _ => NoJob
  }

  function WithJob(pc: Pc, job: Job): Pc {
    match pc
    case Walking(f, list, _) => Walking(f, list, job)
    case Sealing(r, todo, own, _) => Sealing(r, todo, own, job)
    case _ => pc
  }

  /** The distinct fragments a revision names. */
  function Distinct(slots: seq<Slot>): set<nat> {
    set i | 0 <= i < |slots| && slots[i].Names? :: slots[i].fragment
  }

  function Tokens(fs: set<nat>): (tokens: set<Token>)
    ensures forall token :: token in tokens <==> token.Of? && token.fragment in fs
  {
    var tokens := set f | f in fs :: Of(f);
    assert forall token: Token :: token.Of? && token.fragment in fs ==> token == Of(token.fragment) && token in tokens;
    tokens
  }

  /** Every requirement of a fragment the slots name is exactly in its slot. */
  predicate Closure(fragments: map<nat, Fragment>, slots: seq<Slot>) {
    forall f, k :: f in Distinct(slots) && f in fragments && 0 <= k < |fragments[f].requirements| ==>
      var q := fragments[f].requirements[k];
      q.slot < |slots| && slots[q.slot] == q.fragment
  }

  /** Seal's checks: the draft is of the newest revision, and its closure is whole. */
  predicate Sealable(s: State, base: nat, slots: seq<Slot>) {
    base == s.latestSequence && Closure(s.fragments, slots)
  }

  predicate Enabled(s: State, t: nat, a: Action) {
    && t in s.threads
    && var pc := s.threads[t];
       match a
       case NewFragment(f, _) => pc == Idle && f !in s.fragments
       case Claim(f, _) => pc == Idle && t != 0 && f in s.fragments
       case Store => pc.Claimed? && pc.fragment in s.fragments
       case Close => pc.Stored? && pc.fragment in s.fragments
       case TakeWaiter(r, locked) => pc.Walking? && pc.job == NoJob && r in pc.list && (r in s.pending ==> locked)
       case EndWalk => pc.Walking? && pc.job == NoJob && pc.list == {}
       case Flag => JobOf(pc).Flagging? && JobOf(pc).fragment in s.fragments && JobOf(pc).revision in s.revisions
       case CountDown => JobOf(pc).Counting? && JobOf(pc).revision in s.revisions
       case PushCompleted => JobOf(pc).Pushing?
       case Seal(base, slots) => t == 0 && pc == Idle && |slots| == |s.latest| && Distinct(slots) <= s.fragments.Keys
       case Attach(f) => t == 0 && pc.Sealing? && pc.job == NoJob && f in pc.todo && f in s.fragments
       case OwnCount => t == 0 && pc.Sealing? && pc.job == NoJob && pc.todo == {} && pc.own
       case EndSeal => t == 0 && pc.Sealing? && pc.job == NoJob && pc.todo == {} && !pc.own
       case Collect => t == 0 && pc == Idle
       case TakeCompleted(r) => t == 0 && pc.Collecting? && r in pc.list && r in s.revisions
       case EndCollect => t == 0 && pc.Collecting? && pc.list == {}
       case TakeBack => t == 0 && pc.TakingBack?
       case Announce => t == 0 && pc.Announcing?
       case Select(_) => true
  }

  function Goto(s: State, t: nat, pc: Pc): State {
    s.(threads := s.threads[t := pc])
  }

  /** One completed revision of Collect's loop: its list, the newest complete one, the pending ones, the counts and fates. */
  function TakeOne(s: State, pc: Pc, r: nat): State
    requires pc.Collecting? && r in s.revisions
  {
    var list, pending := pc.list - {r}, s.pending - {r};
    if r !in s.pending then
      s.(threads := s.threads[0 := Collecting(list, pc.newest)])
    else if s.revisions[r].failed then
      s.(threads := s.threads[0 := Collecting(list, pc.newest)], pending := pending,
         stats := s.stats.(failed := s.stats.failed + 1), fates := s.fates[r := FailedRevision])
    else if r <= s.publishedSequence || (pc.newest.Names? && r < pc.newest.fragment) then
      s.(threads := s.threads[0 := Collecting(list, pc.newest)], pending := pending,
         stats := s.stats.(superseded := s.stats.superseded + 1), fates := s.fates[r := Superseded])
    else if pc.newest.Names? then
      s.(threads := s.threads[0 := Collecting(list, Names(r))], pending := pending,
         stats := s.stats.(superseded := s.stats.superseded + 1), fates := s.fates[pc.newest.fragment := Superseded])
    else
      s.(threads := s.threads[0 := Collecting(list, Names(r))], pending := pending)
  }

  function Older(pending: set<nat>, r: nat): set<nat> {
    set p | p in pending && p < r
  }

  function AllAbandoned(older: set<nat>): map<nat, Fate> {
    map q | q in older :: Abandoned
  }

  /** Publishes the newest complete revision and abandons the older pending ones. */
  function PublishNewest(s: State, r: nat): State {
    var older := Older(s.pending, r);
    s.(threads := s.threads[0 := TakingBack(r)],
       publishedSequence := r,
       pending := s.pending - older,
       stats := s.stats.(published := s.stats.published + 1, abandoned := s.stats.abandoned + |older|),
       fates := (s.fates + AllAbandoned(older))[r := Published])
  }

  /** Settle: the first to claim goes on. */
  function ClaimStep(s: State, t: nat, f: nat, ok: bool): State
    requires f in s.fragments
  {
    if s.fragments[f].claimed then s
    else s.(fragments := s.fragments[f := s.fragments[f].(claimed := true)], threads := s.threads[t := Claimed(f, ok)])
  }

  function StoreStep(s: State, t: nat, f: nat, ok: bool): State
    requires f in s.fragments
  {
    s.(fragments := s.fragments[f := s.fragments[f].(state := if ok then Ready else Failed)], threads := s.threads[t := Stored(f)])
  }

  function CloseStep(s: State, t: nat, f: nat): State
    requires f in s.fragments
  {
    s.(fragments := s.fragments[f := s.fragments[f].(closed := true, waiters := {})],
       threads := s.threads[t := Walking(f, s.fragments[f].waiters, NoJob)])
  }

  /** SettleWaiter: a failed fragment marks the revision failed. */
  function FlagStep(s: State, t: nat, pc: Pc, r: nat, f: nat): State
    requires r in s.revisions && f in s.fragments
  {
    var failed := s.revisions[r].failed || s.fragments[f].state == Failed;
    s.(revisions := s.revisions[r := s.revisions[r].(failed := failed)], threads := s.threads[t := WithJob(pc, Counting(r, Of(f)))])
  }

  function CountStep(s: State, t: nat, pc: Pc, r: nat, token: Token): State
    requires r in s.revisions
  {
    var q := s.revisions[r];
    s.(revisions := s.revisions[r := q.(remaining := q.remaining - 1, owed := q.owed - {token})],
       threads := s.threads[t := WithJob(pc, if q.remaining == 1 then Pushing(r) else NoJob)])
  }

  function PushStep(s: State, t: nat, pc: Pc, r: nat): State {
    s.(completed := s.completed + {r}, completions := s.completions + [r], threads := s.threads[t := WithJob(pc, NoJob)])
  }

  function SealStep(s: State, slots: seq<Slot>): State {
    var r, distinct := s.latestSequence + 1, Distinct(slots);
    s.(revisions := s.revisions[r := Revision(slots, |distinct| + 1, false, Tokens(distinct) + {OfSeal})],
       threads := s.threads[0 := Sealing(r, distinct, true, NoJob)],
       latest := slots, latestSequence := r, pending := s.pending + {r}, stats := s.stats.(sealed := s.stats.sealed + 1))
  }

  function AttachStep(s: State, pc: Pc, f: nat): State
    requires pc.Sealing? && f in s.fragments
  {
    if s.fragments[f].closed then
      s.(threads := s.threads[0 := Sealing(pc.revision, pc.todo - {f}, pc.own, Flagging(pc.revision, f))])
    else
      s.(fragments := s.fragments[f := s.fragments[f].(waiters := s.fragments[f].waiters + {pc.revision})],
         threads := s.threads[0 := Sealing(pc.revision, pc.todo - {f}, pc.own, NoJob)])
  }

  /** The frame takes what is ready, and keeps it if it accepts. */
  function SelectStep(s: State, accept: bool): State {
    if s.ready.Nothing? then s
    else s.(ready := Nothing, selected := if accept then s.selected + [s.ready.fragment] else s.selected)
  }

  function Apply(s: State, t: nat, a: Action): State
    requires Enabled(s, t, a)
  {
    var pc := s.threads[t];
    match a
    case NewFragment(f, requirements) => s.(fragments := s.fragments[f := Fragment(requirements, false, Pending, false, {})])
    case Claim(f, ok) => ClaimStep(s, t, f, ok)
    case Store => StoreStep(s, t, pc.fragment, pc.ok)
    case Close => CloseStep(s, t, pc.fragment)
    case TakeWaiter(r, locked) => Goto(s, t, Walking(pc.fragment, pc.list - {r}, if locked then Flagging(r, pc.fragment) else NoJob))
    case EndWalk => Goto(s, t, Idle)
    case Flag => FlagStep(s, t, pc, JobOf(pc).revision, JobOf(pc).fragment)
    case CountDown => CountStep(s, t, pc, JobOf(pc).revision, JobOf(pc).token)
    case PushCompleted => PushStep(s, t, pc, JobOf(pc).revision)
    case Seal(base, slots) => if Sealable(s, base, slots) then SealStep(s, slots) else s
    case Attach(f) => AttachStep(s, pc, f)
    case OwnCount => Goto(s, t, Sealing(pc.revision, pc.todo, false, Counting(pc.revision, OfSeal)))
    case EndSeal => Goto(s, t, Idle)
    case Collect => s.(threads := s.threads[0 := Collecting(s.completed, Nothing)], completed := {})
    case TakeCompleted(r) => TakeOne(s, pc, r)
    case EndCollect => if pc.newest.Nothing? then Goto(s, t, Idle) else PublishNewest(s, pc.newest.fragment)
    case TakeBack => s.(threads := s.threads[0 := Announcing(pc.revision)], ready := Nothing)
    case Announce => s.(threads := s.threads[0 := Idle], ready := Names(pc.revision))
    case Select(accept) => SelectStep(s, accept)
  }

  // ---- runs ----

  /** A step of the run: a thread and what it does. */
  datatype Step = Step(thread: nat, action: Action)

  predicate IsRun(run: seq<State>, steps: seq<Step>) {
    && |run| == |steps| + 1 && Init(run[0])
    && forall i :: 0 <= i < |steps| ==>
         Enabled(run[i], steps[i].thread, steps[i].action) && run[i + 1] == Apply(run[i], steps[i].thread, steps[i].action)
  }
}
