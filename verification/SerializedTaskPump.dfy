/** The single-consumer task pump (include/ORGModuleServices/Async/SerializedTaskPump.h): one atomic word holds the consumer's
    state and the requested epoch. Any number of threads notify, run submitted tasks, drain inline, or stop the pump; each
    action is one atomic operation on the word or one call of a hook (submit, drain), whose outcome is left open. */
module SerializedTaskPump {

  datatype PumpState = Idle | Scheduled | Running | Stopping
  datatype Word = Word(state: PumpState, epoch: nat)
  datatype HandoffMode = Inline | Resubmit

  datatype Pc =
    | Outside
    | Notifying(word: Word)              // Notify: holds a loaded word
    | Submitting                         // about to call submit
    | Failing(owner: bool)               // Fail: about to set every state bit
    | TaskStarted                        // Run: about to load the word
    | Claiming(word: Word)               // Run: holds a loaded word
    | ClaimingInline(word: Word)         // TryRunInline: holds a loaded word
    | Owning                             // RunOwned: about to load the word
    | Draining(observed: nat)            // inside the drain
    | Drained(observed: nat)             // about to store the drained epoch
    | Rereading(observed: nat)           // about to load the word again
    | Leaving(observed: nat, word: Word) // about to hand over or go idle

  datatype State = State(
    word: Word,
    drainedEpoch: nat,
    tasks: nat,               // submitted tasks no thread has started
    mode: HandoffMode,
    threads: map<nat, Pc>)

  datatype Action =
    | BeginNotify
    | NotifyExchange
    | Submit(accepted: bool)
    | SetStopping
    | StartTask
    | LoadForTask
    | ClaimExchange
    | BeginInline
    | InlineExchange
    | LoadOwned
    | EndDrain(threw: bool)
    | StoreDrained
    | Reread
    | LeaveExchange
    | Stop

  predicate Init(s: State) {
    && s.word == Word(Idle, 0) && s.drainedEpoch == 0 && s.tasks == 0
    && forall t :: t in s.threads ==> s.threads[t] == Outside
  }

  predicate Enabled(s: State, t: nat, a: Action) {
    && t in s.threads
    && var pc := s.threads[t];
       match a
       case BeginNotify => pc == Outside
       case BeginInline => pc == Outside
       case StartTask => pc == Outside && s.tasks > 0
       case Stop => pc == Outside
       case NotifyExchange => pc.Notifying?
       case Submit(_) => pc.Submitting?
       case SetStopping => pc.Failing?
       case LoadForTask => pc.TaskStarted?
       case ClaimExchange => pc.Claiming?
       case InlineExchange => pc.ClaimingInline?
       case LoadOwned => pc.Owning?
       case EndDrain(_) => pc.Draining?
       case StoreDrained => pc.Drained?
       case Reread => pc.Rereading?
       case LeaveExchange => pc.Leaving?
  }

  function Goto(s: State, t: nat, pc: Pc): State {
    s.(threads := s.threads[t := pc])
  }

  function Apply(s: State, t: nat, a: Action): State
    requires Enabled(s, t, a)
  {
    var pc := s.threads[t];
    match a
    case BeginNotify => Goto(s, t, Notifying(s.word))
    case NotifyExchange =>
      if pc.word.state == Stopping then Goto(s, t, Outside)
      else if s.word != pc.word then Goto(s, t, Notifying(s.word))
      else if pc.word.state == Idle then Goto(s, t, Submitting).(word := Word(Scheduled, pc.word.epoch + 1))
      else Goto(s, t, Outside).(word := Word(pc.word.state, pc.word.epoch + 1))
    case Submit(accepted) => if accepted then Goto(s, t, Outside).(tasks := s.tasks + 1) else Goto(s, t, Failing(false))
    case SetStopping => Goto(s, t, Outside).(word := Word(Stopping, s.word.epoch))
    case StartTask => Goto(s, t, TaskStarted).(tasks := s.tasks - 1)
    case LoadForTask => Goto(s, t, Claiming(s.word))
    case ClaimExchange =>
      if pc.word.state in {Stopping, Running} then Goto(s, t, Outside)
      else if s.word != pc.word then Goto(s, t, Claiming(s.word))
      else Goto(s, t, Owning).(word := Word(Running, pc.word.epoch))
    case BeginInline => Goto(s, t, ClaimingInline(s.word))
    case InlineExchange =>
      if pc.word.state in {Stopping, Running} then Goto(s, t, Outside)
      else if s.word != pc.word then Goto(s, t, ClaimingInline(s.word))
      else Goto(s, t, Owning).(word := Word(Running, pc.word.epoch + 1))
    case LoadOwned => Goto(s, t, if s.word.state == Stopping then Outside else Draining(s.word.epoch))
    case EndDrain(threw) => Goto(s, t, if threw then Failing(true) else Drained(pc.observed))
    case StoreDrained => Goto(s, t, Rereading(pc.observed)).(drainedEpoch := pc.observed)
    case Reread => Goto(s, t, Leaving(pc.observed, s.word))
    case LeaveExchange =>
      if pc.word.state == Stopping then Goto(s, t, Outside)
      else if pc.word.epoch == pc.observed then
        if s.word != pc.word then Goto(s, t, Leaving(pc.observed, s.word))
        else Goto(s, t, Outside).(word := Word(Idle, pc.observed))
      else if s.mode != Resubmit then Goto(s, t, Owning)
      else if s.word != pc.word then Goto(s, t, Leaving(pc.observed, s.word))
      else Goto(s, t, Submitting).(word := Word(Scheduled, pc.word.epoch))
    case Stop => s.(word := Word(Stopping, s.word.epoch))
  }

  // ---- the invariant ----

  /** The thread holds the consumer role. */
  predicate Owner(pc: Pc) {
    pc.Owning? || pc.Draining? || pc.Drained? || pc.Rereading? || pc.Leaving? || (pc.Failing? && pc.owner)
  }

  /** The thread will not let a scheduled pump sleep: it submits a task, is one that has not yet looked away, or stops the pump. */
  predicate Carries(pc: Pc) {
    || pc.Submitting? || pc.TaskStarted? || (pc.Failing? && !pc.owner)
    || (pc.Claiming? && pc.word.state in {Idle, Scheduled})
  }

  predicate HasOwner(s: State) {
    exists t :: t in s.threads && Owner(s.threads[t])
  }

  predicate HasCarrier(s: State) {
    s.tasks > 0 || exists t :: t in s.threads && Carries(s.threads[t])
  }

  predicate OneOwner(s: State) {
    && (forall t, u :: t in s.threads && u in s.threads && Owner(s.threads[t]) && Owner(s.threads[u]) ==> t == u)
    && (s.word.state == Running ==> HasOwner(s))
    && (s.word.state in {Idle, Scheduled} ==> !HasOwner(s))
  }

  predicate NeverStranded(s: State) {
    s.word.state == Scheduled ==> HasCarrier(s)
  }

  /** What an owner has observed, and what an idle pump has drained. */
  predicate Observed(s: State) {
    && (s.word.state == Idle ==> s.drainedEpoch == s.word.epoch)
    && (forall t :: t in s.threads ==> match s.threads[t]
          case Rereading(observed) => s.drainedEpoch == observed
          case Leaving(observed, word) => s.drainedEpoch == observed && word.state in {Running, Stopping} &&
            (word.state == Stopping ==> s.word.state == Stopping)
          case _ => true)
  }

  predicate Inv(s: State) {
    OneOwner(s) && NeverStranded(s) && Observed(s)
  }

  /** A thread becomes the owner only by an exchange that turns an unowned pump to Running. */
  lemma Claims(s: State, t: nat, a: Action)
    requires Inv(s) && Enabled(s, t, a) && Owner(Apply(s, t, a).threads[t])
    ensures Owner(s.threads[t]) || (!HasOwner(s) && Apply(s, t, a).word.state == Running)
  {}

  /** The owner keeps the role until the word leaves Running. */
  lemma Gives(s: State, t: nat, a: Action)
    requires Inv(s) && Enabled(s, t, a) && Owner(s.threads[t]) && !Owner(Apply(s, t, a).threads[t])
    ensures Apply(s, t, a).word.state != Running
  {}

  /** Ownership after a step of thread t to `pc`. */
  lemma OwnersAfter(s: State, s': State, t: nat, pc: Pc)
    requires OneOwner(s) && t in s.threads && s'.threads == s.threads[t := pc]
    requires Owner(pc) ==> (Owner(s.threads[t]) && s'.word.state !in {Idle, Scheduled}) || (!HasOwner(s) && s'.word.state == Running)
    requires !Owner(pc) && Owner(s.threads[t]) ==> s'.word.state != Running
    requires !Owner(pc) && !Owner(s.threads[t]) ==>
      s'.word.state == Stopping || (s.word.state != Stopping && (s.word.state == Running <==> s'.word.state == Running))
    ensures OneOwner(s')
  {
    if HasOwner(s) { var u :| u in s.threads && Owner(s.threads[u]); assert u != t ==> Owner(s'.threads[u]); }
    if Owner(pc) { assert Owner(s'.threads[t]); }
  }

  lemma StepOneOwner(s: State, t: nat, a: Action)
    requires Inv(s) && Enabled(s, t, a)
    ensures OneOwner(Apply(s, t, a))
  {
    var s' := Apply(s, t, a);
    if Owner(s'.threads[t]) { Claims(s, t, a); }
    if Owner(s.threads[t]) && !Owner(s'.threads[t]) { Gives(s, t, a); }
    OwnersAfter(s, s', t, s'.threads[t]);
  }

  lemma StepNeverStranded(s: State, t: nat, a: Action)
    requires Inv(s) && Enabled(s, t, a)
    ensures NeverStranded(Apply(s, t, a))
  {
    var s' := Apply(s, t, a);
    if s'.word.state == Scheduled && s'.tasks == 0 && !Carries(s'.threads[t]) {
      var u :| u in s.threads && Carries(s.threads[u]);
      assert Carries(s'.threads[u]);
    }
  }

  lemma StepInv(s: State, t: nat, a: Action)
    requires Inv(s) && Enabled(s, t, a)
    ensures Inv(Apply(s, t, a))
    ensures s.word.epoch <= Apply(s, t, a).word.epoch
    ensures s.word.state == Stopping ==> Apply(s, t, a).word.state == Stopping
  {
    StepOneOwner(s, t, a);
    StepNeverStranded(s, t, a);
  }

  // ---- over every interleaving ----

  predicate IsRun(run: seq<State>, acts: seq<(nat, Action)>) {
    && |run| == |acts| + 1
    && Init(run[0])
    && forall i :: 0 <= i < |acts| ==> Enabled(run[i], acts[i].0, acts[i].1) && run[i + 1] == Apply(run[i], acts[i].0, acts[i].1)
  }

  lemma {:induction false} RunInv(run: seq<State>, acts: seq<(nat, Action)>, i: nat)
    requires IsRun(run, acts) && i < |run|
    ensures Inv(run[i])
  {
    if i > 0 {
      RunInv(run, acts, i - 1);
      StepInv(run[i - 1], acts[i - 1].0, acts[i - 1].1);
    }
  }

  /** The requested epoch only grows, and a pump once Stopping stays Stopping. */
  lemma {:induction false} EpochGrowsAndStoppingStays(run: seq<State>, acts: seq<(nat, Action)>, i: nat, j: nat)
    requires IsRun(run, acts) && i <= j < |run|
    ensures run[i].word.epoch <= run[j].word.epoch
    ensures run[i].word.state == Stopping ==> run[j].word.state == Stopping
    decreases j
  {
    if i < j {
      EpochGrowsAndStoppingStays(run, acts, i, j - 1);
      RunInv(run, acts, j - 1);
      StepInv(run[j - 1], acts[j - 1].0, acts[j - 1].1);
    }
  }

  /** Two threads never drain at once, in either handoff mode. */
  lemma AtMostOneDrains(run: seq<State>, acts: seq<(nat, Action)>, i: nat, t: nat, u: nat)
    requires IsRun(run, acts) && i < |run| && t in run[i].threads && u in run[i].threads
    requires run[i].threads[t].Draining? && run[i].threads[u].Draining?
    ensures t == u
  {
    RunInv(run, acts, i);
  }

  /** Action `k` of the run began a drain that had observed epoch `epoch`. */
  predicate BeganAt(run: seq<State>, acts: seq<(nat, Action)>, k: nat, epoch: nat)
    requires |run| == |acts| + 1 && k < |acts|
  {
    acts[k].1 == LoadOwned && run[k].word.state != Stopping && run[k].word.epoch == epoch
  }

  predicate Began(run: seq<State>, acts: seq<(nat, Action)>, j: nat, epoch: nat)
    requires |run| == |acts| + 1 && j < |run|
  {
    exists k :: 0 <= k < j && BeganAt(run, acts, k, epoch)
  }

  function ObservedBy(pc: Pc): int {
    match pc
    case Draining(observed) => observed
    case Drained(observed) => observed
    case Rereading(observed) => observed
    case Leaving(observed, _) => observed
    case _ => -1
  }

  /** Every epoch an owner observed, and the drained epoch (unless none was drained yet), is one at which a drain began. */
  predicate AllBegan(run: seq<State>, acts: seq<(nat, Action)>, j: nat)
    requires |run| == |acts| + 1 && j < |run|
  {
    && (run[j].drainedEpoch == 0 || Began(run, acts, j, run[j].drainedEpoch))
    && (forall t :: t in run[j].threads && ObservedBy(run[j].threads[t]) >= 0 ==>
          Began(run, acts, j, ObservedBy(run[j].threads[t])))
  }

  lemma BeganStays(run: seq<State>, acts: seq<(nat, Action)>, j: nat)
    requires |run| == |acts| + 1 && j + 1 < |run|
    ensures forall epoch: nat :: Began(run, acts, j, epoch) ==> Began(run, acts, j + 1, epoch)
  {
    forall epoch: nat | Began(run, acts, j, epoch) ensures Began(run, acts, j + 1, epoch) {
      var k :| 0 <= k < j && BeganAt(run, acts, k, epoch);
      assert 0 <= k < j + 1 && BeganAt(run, acts, k, epoch);
    }
  }

  /** A thread goes on with what it observed, unless it just began a drain. */
  lemma StepObserved(s: State, t: nat, a: Action, u: nat)
    requires Enabled(s, t, a) && u in s.threads && ObservedBy(Apply(s, t, a).threads[u]) >= 0
    ensures ObservedBy(Apply(s, t, a).threads[u]) == ObservedBy(s.threads[u]) || (a == LoadOwned && u == t
      && s.word.state != Stopping && ObservedBy(Apply(s, t, a).threads[u]) == s.word.epoch)
  {}

  lemma StepDrained(s: State, t: nat, a: Action)
    requires Enabled(s, t, a)
    ensures Apply(s, t, a).drainedEpoch == s.drainedEpoch || Apply(s, t, a).drainedEpoch == ObservedBy(s.threads[t])
  {}

  lemma {:induction false} EveryDrainBegan(run: seq<State>, acts: seq<(nat, Action)>, j: nat)
    requires IsRun(run, acts) && j < |run|
    ensures AllBegan(run, acts, j)
  {
    if j > 0 {
      var i := j - 1;
      EveryDrainBegan(run, acts, i);
      BeganStays(run, acts, i);
      var (t, a) := acts[i];
      StepDrained(run[i], t, a);
      if a == LoadOwned && run[i].word.state != Stopping {
        assert BeganAt(run, acts, i, run[i].word.epoch);
      }
      forall u | u in run[j].threads && ObservedBy(run[j].threads[u]) >= 0
        ensures Began(run, acts, j, ObservedBy(run[j].threads[u]))
      {
        StepObserved(run[i], t, a, u);
      }
    }
  }

  /** Action `i` of the run is an accepted notification: its exchange requested a new epoch. */
  predicate Accepts(run: seq<State>, acts: seq<(nat, Action)>, i: nat)
    requires |run| == |acts| + 1 && i < |acts|
  {
    acts[i].1 == NotifyExchange && run[i + 1].word.epoch > run[i].word.epoch
  }

  /** An accepted notification is followed by a drain that began after it, by the time the pump is next seen idle. */
  lemma NotifiedThenDrained(run: seq<State>, acts: seq<(nat, Action)>, i: nat, j: nat)
    requires IsRun(run, acts) && i < j < |run|
    requires Accepts(run, acts, i) && run[j].word.state == Idle
    ensures exists k :: i < k < j && BeganAt(run, acts, k, run[j].word.epoch)
  {
    RunInv(run, acts, j);
    EveryDrainBegan(run, acts, j);
    EpochGrowsAndStoppingStays(run, acts, i + 1, j);
    var k :| 0 <= k < j && BeganAt(run, acts, k, run[j].word.epoch);
    if k <= i { EpochGrowsAndStoppingStays(run, acts, k, i); }
  }

  /** A pump that is not stopped, with no task left and no thread inside it, is idle; so all it accepted has been drained. */
  lemma NothingStranded(run: seq<State>, acts: seq<(nat, Action)>, i: nat, j: nat)
    requires IsRun(run, acts) && i < j < |run| && Accepts(run, acts, i)
    requires run[j].word.state != Stopping && run[j].tasks == 0
    requires forall t :: t in run[j].threads ==> run[j].threads[t] == Outside
    ensures run[j].word.state == Idle && run[j].drainedEpoch == run[j].word.epoch
    ensures exists k :: i < k < j && BeganAt(run, acts, k, run[j].word.epoch)
  {
    RunInv(run, acts, j);
    NotifiedThenDrained(run, acts, i, j);
  }

  /** A scheduled pump always has a task to come: one waiting, one that has started and not looked away, or a thread about to
      submit one (or about to stop the pump because its submission was refused). */
  lemma ScheduledHasATask(run: seq<State>, acts: seq<(nat, Action)>, i: nat)
    requires IsRun(run, acts) && i < |run| && run[i].word.state == Scheduled
    ensures run[i].tasks > 0 || exists t :: t in run[i].threads && Carries(run[i].threads[t])
  {
    RunInv(run, acts, i);
  }

  // ---- told by the calls ----

  /** A Notify leaves its loop only having loaded a stopping word, or having requested one epoch more; from idle, it is then the one to
      submit a task. And it does leave, when the word is the one it loaded. */
  lemma NotifyEnds(s: State, t: nat)
    requires Enabled(s, t, NotifyExchange)
    ensures var s', word := Apply(s, t, NotifyExchange), s.threads[t].word;
      && (s'.threads[t].Notifying? <==> word.state != Stopping && word != s.word)
      && (s'.threads[t].Notifying? || word.state == Stopping ==> s'.word == s.word)
      && (!s'.threads[t].Notifying? && word.state != Stopping ==> Requested(s, s') && (s'.threads[t] == Submitting <==> s.word.state == Idle))
  {}

  /** One epoch more was requested; an idle pump is scheduled, any other goes on as it was. */
  predicate Requested(s: State, s': State) {
    s'.word == Word(if s.word.state == Idle then Scheduled else s.word.state, s.word.epoch + 1)
  }

  /** Call b of the run is a Notify still in its loop in state j. */
  predicate StillNotifying(run: seq<State>, acts: seq<(nat, Action)>, b: nat, j: nat)
    requires IsRun(run, acts) && b < |acts|
  {
    b < j < |run| && forall m :: b < m <= j ==> acts[b].0 in run[m].threads && run[m].threads[acts[b].0].Notifying?
  }

  lemma StepLeavesOthers(s: State, t: nat, a: Action, u: nat)
    requires Enabled(s, t, a) && u in s.threads && u != t
    ensures u in Apply(s, t, a).threads && Apply(s, t, a).threads[u] == s.threads[u]
  {}

  /** A word a thread holds as stopping was the pump's. */
  predicate StoppingIsReal(s: State) {
    forall t :: t in s.threads && s.threads[t].Notifying? && s.threads[t].word.state == Stopping ==> s.word.state == Stopping
  }

  lemma {:induction false} LoadedStopping(run: seq<State>, acts: seq<(nat, Action)>, i: nat)
    requires IsRun(run, acts) && i < |run|
    ensures StoppingIsReal(run[i])
  {
    if i > 0 {
      LoadedStopping(run, acts, i - 1);
      RunInv(run, acts, i - 1);
      StepInv(run[i - 1], acts[i - 1].0, acts[i - 1].1);
      var s, t, a := run[i - 1], acts[i - 1].0, acts[i - 1].1;
      forall u | u in run[i].threads && run[i].threads[u].Notifying? && run[i].threads[u].word.state == Stopping
        ensures run[i].word.state == Stopping
      {
        if u != t { StepLeavesOthers(s, t, a, u); }
      }
    }
  }

  /** The step by which a Notify leaves its loop is an accepted one, unless the pump was stopping. */
  lemma JustNotified(run: seq<State>, acts: seq<(nat, Action)>, b: nat, i: nat)
    requires IsRun(run, acts) && b < i < |acts| && StillNotifying(run, acts, b, i) && !StillNotifying(run, acts, b, i + 1)
    ensures run[i].word.state == Stopping || (Accepts(run, acts, i) && Requested(run[i], run[i + 1]))
    ensures acts[i].0 == acts[b].0 && (run[i].word.state == Idle ==> run[i + 1].threads[acts[b].0] == Submitting)
  {
    var t := acts[b].0;
    LoadedStopping(run, acts, i);
    if acts[i].0 == t { NotifyEnds(run[i], t); } else { StepLeavesOthers(run[i], acts[i].0, acts[i].1, t); }
  }

  /** So a Notify that is done by a state in which the pump was not stopped was accepted in between: one epoch more was requested, and of
      an idle pump this thread went on to submit a task. */
  lemma {:induction false} NotifyIsAccepted(run: seq<State>, acts: seq<(nat, Action)>, b: nat, j: nat) returns (i: nat)
    requires IsRun(run, acts) && b < j < |run| && acts[b].1 == BeginNotify && !StillNotifying(run, acts, b, j)
    requires run[j].word.state != Stopping
    ensures b < i < j && Accepts(run, acts, i) && Requested(run[i], run[i + 1])
    ensures acts[i].0 == acts[b].0 && (run[i].word.state == Idle ==> run[i + 1].threads[acts[b].0] == Submitting)
    decreases j
  {
    assert StillNotifying(run, acts, b, b + 1);
    EpochGrowsAndStoppingStays(run, acts, j - 1, j);
    if StillNotifying(run, acts, b, j - 1) {
      i := j - 1;
      JustNotified(run, acts, b, i);
    } else {
      i := NotifyIsAccepted(run, acts, b, j - 1);
    }
  }

  /** Every Notify of a pump that was not stopped is followed by a drain that began after it, by the time no task is left and no thread is
      inside. */
  lemma EveryNotifyIsDrained(run: seq<State>, acts: seq<(nat, Action)>, b: nat, j: nat)
    requires IsRun(run, acts) && b < j < |run| && acts[b].1 == BeginNotify
    requires run[j].word.state != Stopping && run[j].tasks == 0
    requires forall t :: t in run[j].threads ==> run[j].threads[t] == Outside
    ensures run[j].word.state == Idle && run[j].drainedEpoch == run[j].word.epoch
    ensures exists k :: b < k < j && BeganAt(run, acts, k, run[j].word.epoch)
  {
    var t := acts[b].0;
    assert t in run[j].threads ==> run[j].threads[t] == Outside;
    var i := NotifyIsAccepted(run, acts, b, j);
    NothingStranded(run, acts, i, j);
    var k :| i < k < j && BeganAt(run, acts, k, run[j].word.epoch);
  }

  // ---- what stops a pump ----

  /** The calls that stop a pump: Stop, a submission the scheduler refuses, a drain that throws. */
  predicate Stops(a: Action) {
    a == Stop || a == Submit(false) || a == EndDrain(true)
  }

  /** A stopping pump, or a thread about to stop it, had one of these. */
  predicate StoppedSoFar(run: seq<State>, acts: seq<(nat, Action)>, j: nat)
    requires |run| == |acts| + 1 && j < |run|
  {
    exists k :: 0 <= k < j && Stops(acts[k].1)
  }

  predicate StoppingOrFailing(s: State) {
    s.word.state == Stopping || exists t :: t in s.threads && s.threads[t].Failing?
  }

  lemma StopsStay(s: State, t: nat, a: Action)
    requires Enabled(s, t, a) && Inv(s) && StoppingOrFailing(s)
    ensures StoppingOrFailing(Apply(s, t, a))
  {
    StepInv(s, t, a);
    if s.word.state != Stopping {
      var u :| u in s.threads && s.threads[u].Failing?;
      if u != t { StepLeavesOthers(s, t, a, u); }
    }
  }

  lemma StepStops(s: State, t: nat, a: Action)
    requires Enabled(s, t, a) && Inv(s)
    ensures StoppingOrFailing(Apply(s, t, a)) <==> StoppingOrFailing(s) || Stops(a)
  {
    if StoppingOrFailing(s) { StopsStay(s, t, a); } else { StopsNow(s, t, a); }
  }

  lemma StopsNow(s: State, t: nat, a: Action)
    requires Enabled(s, t, a) && !StoppingOrFailing(s)
    ensures StoppingOrFailing(Apply(s, t, a)) <==> Stops(a)
  {
    var s' := Apply(s, t, a);
    if Stops(a) && a != Stop { assert s'.threads[t].Failing?; }
    if s'.word.state != Stopping && StoppingOrFailing(s') {
      var u :| u in s'.threads && s'.threads[u].Failing?;
      if u != t { StepLeavesOthers(s, t, a, u); }
    }
  }

  lemma {:induction false} StoppedByACall(run: seq<State>, acts: seq<(nat, Action)>, j: nat)
    requires IsRun(run, acts) && j < |run|
    ensures StoppingOrFailing(run[j]) <==> StoppedSoFar(run, acts, j)
  {
    if j > 0 {
      StoppedByACall(run, acts, j - 1);
      RunInv(run, acts, j - 1);
      StepStops(run[j - 1], acts[j - 1].0, acts[j - 1].1);
      assert StoppedSoFar(run, acts, j) <==> StoppedSoFar(run, acts, j - 1) || Stops(acts[j - 1].1);
    }
  }

  /** Once no thread is inside, the pump is stopping if and only if Stop was called, a submission was refused or a drain threw. */
  lemma StoppingExactly(run: seq<State>, acts: seq<(nat, Action)>, j: nat)
    requires IsRun(run, acts) && j < |run| && forall t :: t in run[j].threads ==> run[j].threads[t] == Outside
    ensures run[j].word.state == Stopping <==> exists k :: 0 <= k < j && Stops(acts[k].1)
  {
    StoppedByACall(run, acts, j);
    assert StoppedSoFar(run, acts, j) <==> exists k :: 0 <= k < j && Stops(acts[k].1);
  }

  // ---- no call waits for another ----

  /** Thread t's own steps lead from s to e, its submissions accepted and its drains returning. */
  predicate Alone(s: State, t: nat, acts: seq<Action>, e: State)
    decreases |acts|
  {
    if acts == [] then e == s
    else !Stops(acts[0]) && Enabled(s, t, acts[0]) && Alone(Apply(s, t, acts[0]), t, acts[1..], e)
  }

  /** How far the thread is from the end of its call, by itself. */
  function Distance(pc: Pc, word: Word, mode: HandoffMode): nat {
    match pc
    case Outside => 0
    case Failing(_) => 1
    case Submitting => 2
    case Notifying(w) => if w == word then 3 else 4
    case TaskStarted => 16
    case Claiming(w) => if w == word then 13 else 15
    case ClaimingInline(w) => if w == word then 13 else 15
    case Owning => 10
    case Draining(observed) => if observed == word.epoch then 9 else 15
    case Drained(observed) => if observed == word.epoch then 8 else 14
    case Rereading(observed) => if observed == word.epoch then 7 else 13
    case Leaving(observed, w) =>
      if w.state == Stopping || (w == word && w.epoch == observed) then 1
      else if w.epoch != observed && mode != Resubmit then 11
      else if w == word then 3
      else 12
  }

  function NextOwn(pc: Pc): Action
    requires pc != Outside
  {
    match pc
    case Notifying(_) => NotifyExchange
    case Submitting => Submit(true)
    case Failing(_) => SetStopping
    case TaskStarted => LoadForTask
    case Claiming(_) => ClaimExchange
    case ClaimingInline(_) => InlineExchange
    case Owning => LoadOwned
    case Draining(_) => EndDrain(false)
    case Drained(_) => StoreDrained
    case Rereading(_) => Reread
    case Leaving(_, _) => LeaveExchange
  }

  lemma OneStepNearer(s: State, t: nat)
    requires t in s.threads && s.threads[t] != Outside
    ensures var a := NextOwn(s.threads[t]);
      && Enabled(s, t, a) && t in Apply(s, t, a).threads && Apply(s, t, a).mode == s.mode
      && Distance(Apply(s, t, a).threads[t], Apply(s, t, a).word, s.mode) < Distance(s.threads[t], s.word, s.mode)
  {}

  /** From any state, a thread inside the pump gets out by its own steps: no call waits for another thread. */
  lemma {:induction false} FinishesAlone(s: State, t: nat) returns (acts: seq<Action>, e: State)
    requires t in s.threads
    ensures Alone(s, t, acts, e) && t in e.threads && e.threads[t] == Outside
    decreases Distance(s.threads[t], s.word, s.mode)
  {
    acts, e := [], s;
    if s.threads[t] != Outside {
      var a := NextOwn(s.threads[t]);
      OneStepNearer(s, t);
      var more;
      more, e := FinishesAlone(Apply(s, t, a), t);
      acts := [a] + more;
      assert acts[1..] == more;
    }
  }

  // ---- what a task and an inline run do ----

  /** A task, or an inline run, leaves its loop as the one that drains, unless the pump was stopping or someone else drained when it loaded
      the word; an inline run requests one epoch more. And it leaves it when the word is the one it loaded. */
  lemma ClaimEnds(s: State, t: nat, a: Action)
    requires Enabled(s, t, a) && (a == ClaimExchange || a == InlineExchange)
    ensures var s', word := Apply(s, t, a), s.threads[t].word;
      && (s'.threads[t] == Owning <==> word == s.word && (word.state == Idle || word.state == Scheduled))
      && (s'.threads[t] == Outside <==> word.state == Stopping || word.state == Running)
      && s'.word == (if s'.threads[t] == Owning then Word(Running, s.word.epoch + if a == InlineExchange then 1 else 0) else s.word)
  {}

  /** In resubmit mode a thread never drains twice in a row: it hands what is left to a task. */
  lemma ResubmitHandsOver(s: State, t: nat)
    requires Enabled(s, t, LeaveExchange)
    ensures Apply(s, t, LeaveExchange).threads[t] == Owning ==> s.mode == Inline
    ensures Apply(s, t, LeaveExchange).threads[t] == Submitting ==> s.mode == Resubmit && Apply(s, t, LeaveExchange).word.state == Scheduled
  {}

  /** Call b of the run is a task, or an inline run, still in its loop in state j. */
  predicate StillClaiming(run: seq<State>, acts: seq<(nat, Action)>, b: nat, j: nat)
    requires IsRun(run, acts) && b < |acts|
  {
    b < j < |run| && forall m :: b < m <= j ==> acts[b].0 in run[m].threads && ClaimsFor(acts[b].1, run[m].threads[acts[b].0])
  }

  predicate ClaimsFor(a: Action, pc: Pc) {
    if a == StartTask then pc.TaskStarted? || pc.Claiming? else pc.ClaimingInline?
  }

  /** Step i of the call leaves its loop: it drains now, or loaded the word of a pump that someone drained or that was stopping. */
  predicate Settles(run: seq<State>, acts: seq<(nat, Action)>, b: nat, i: nat)
    requires IsRun(run, acts) && b < |acts| && i < |acts|
  {
    var t := acts[b].0;
    && acts[i] == (t, if acts[b].1 == StartTask then ClaimExchange else InlineExchange)
    && (run[i + 1].threads[t] == Owning || run[i].threads[t].word.state == Stopping || run[i].threads[t].word.state == Running)
  }

  lemma JustClaimed(run: seq<State>, acts: seq<(nat, Action)>, b: nat, i: nat)
    requires IsRun(run, acts) && b < i < |acts| && (acts[b].1 == StartTask || acts[b].1 == BeginInline)
    requires StillClaiming(run, acts, b, i) && !StillClaiming(run, acts, b, i + 1)
    ensures Settles(run, acts, b, i)
  {
    var t := acts[b].0;
    if acts[i].0 == t {
      assert Enabled(run[i], t, acts[i].1);
      if !run[i].threads[t].TaskStarted? { ClaimEnds(run[i], t, acts[i].1); }
    } else {
      StepLeavesOthers(run[i], acts[i].0, acts[i].1, t);
    }
  }

  /** A task that is done, and an inline run, either drained or found the pump drained by someone else, or stopping. */
  lemma {:induction false} RunEnds(run: seq<State>, acts: seq<(nat, Action)>, b: nat, j: nat) returns (i: nat)
    requires IsRun(run, acts) && b < j < |run| && (acts[b].1 == StartTask || acts[b].1 == BeginInline)
    requires !StillClaiming(run, acts, b, j)
    ensures b < i < j && Settles(run, acts, b, i)
    decreases j
  {
    assert run[b + 1] == Apply(run[b], acts[b].0, acts[b].1);
    assert StillClaiming(run, acts, b, b + 1);
    if StillClaiming(run, acts, b, j - 1) {
      i := j - 1;
      JustClaimed(run, acts, b, i);
    } else {
      i := RunEnds(run, acts, b, j - 1);
    }
  }

  /** Submissions accepted, and tasks started, by the first n steps. */
  function Submitted(acts: seq<(nat, Action)>, n: nat): nat
    requires n <= |acts|
  {
    if n == 0 then 0 else Submitted(acts, n - 1) + if acts[n - 1].1 == Submit(true) then 1 else 0
  }

  function Started(acts: seq<(nat, Action)>, n: nat): nat
    requires n <= |acts|
  {
    if n == 0 then 0 else Started(acts, n - 1) + if acts[n - 1].1 == StartTask then 1 else 0
  }

  lemma StepTasks(s: State, t: nat, a: Action)
    requires Enabled(s, t, a)
    ensures Apply(s, t, a).tasks + (if a == StartTask then 1 else 0) == s.tasks + if a == Submit(true) then 1 else 0
  {}

  /** A task is started once for each submission accepted. */
  lemma {:induction false} TasksFromCalls(run: seq<State>, acts: seq<(nat, Action)>, n: nat)
    requires IsRun(run, acts) && n < |run|
    ensures run[n].tasks + Started(acts, n) == Submitted(acts, n)
  {
    if n > 0 {
      TasksFromCalls(run, acts, n - 1);
      StepTasks(run[n - 1], acts[n - 1].0, acts[n - 1].1);
    }
  }
}
