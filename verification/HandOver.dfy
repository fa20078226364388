/** How a published revision reaches the frame: the coordinator's two steps and the frame's one in RevisionAssembly are what the
    three-slot exchange's TryReplace and TrySelect do, whatever else the exchange is at (its reclaiming, its marking of slots). Put
    together, the one handing over through the other, what the frame gets is what the assembly says it selects. */
module HandOver {
  import R = RevisionAssembly
  import RR = RevisionRun
  import X = PublicationExchange

  /** Where the coordinator is with what it hands over. */
  datatype Phase = Free | Taking(candidate: nat) | Offering(candidate: nat)

  /** What both sides see of it: what may be selected, and what was. */
  datatype View = View(phase: Phase, ready: R.Slot, selected: seq<nat>)

  datatype Move = Stay | Begin(candidate: nat) | TakeBack | Offer | Select(accept: bool)

  predicate Possible(v: View, m: Move) {
    match m
    case Begin(_) => v.phase.Free?
    case TakeBack => v.phase.Taking?
    case Offer => v.phase.Offering?
    case _ => true
  }

  function Moved(v: View, m: Move): View
    requires Possible(v, m)
  {
    match m
    case Stay => v
    case Begin(c) => v.(phase := Taking(c))
    case TakeBack => v.(phase := Offering(v.phase.candidate), ready := R.Nothing)
    case Offer => v.(phase := Free, ready := R.Names(v.phase.candidate))
    case Select(accept) =>
      if v.ready.Nothing? then v
      else v.(ready := R.Nothing, selected := if accept then v.selected + [v.ready.fragment] else v.selected)
  }

  // ---- RevisionAssembly ----

  function RevisionPhase(pc: R.Pc): Phase {
    match pc
    case TakingBack(r) => Taking(r)
    case Announcing(r) => Offering(r)
    case _ => Free
  }

  function RevisionView(s: R.State): View
    requires 0 in s.threads
  {
    View(RevisionPhase(s.threads[0]), s.ready, s.selected)
  }

  function RevisionMove(s: R.State, t: nat, a: R.Action): Move
    requires R.Enabled(s, t, a)
  {
    match a
    case EndCollect => if s.threads[t].newest.Names? then Begin(s.threads[t].newest.fragment) else Stay
    case TakeBack => TakeBack
    case Announce => Offer
    case Select(accept) => Select(accept)
    case _ => Stay
  }

  /** Every step of the assembly is a move of the hand-over. */
  lemma RevisionMoves(s: R.State, t: nat, a: R.Action)
    requires R.Enabled(s, t, a) && 0 in s.threads
    ensures 0 in R.Apply(s, t, a).threads && Possible(RevisionView(s), RevisionMove(s, t, a))
    ensures RevisionView(R.Apply(s, t, a)) == Moved(RevisionView(s), RevisionMove(s, t, a))
  {}

  // ---- PublicationExchange ----

  function ExchangePhase(producer: X.Producer): Phase {
    match producer
    case ProducerIdle => Free
    case Exchanging(c) => Taking(c)
    case Returning(_, _, _, _) => Free
    case Reclaiming(offer, _, _) => if offer.Null? then Free else Offering(offer.candidate)
    case Resetting(offer, _, _) => if offer.Null? then Free else Offering(offer.candidate)
    case Emptying(offer, _, _) => if offer.Null? then Free else Offering(offer.candidate)
    case _ => Offering(producer.candidate)
  }

  /** The producer offers by TryReplace, as the coordinator does. */
  predicate Replaces(producer: X.Producer) {
    match producer
    case ProducerIdle => true
    case Exchanging(_) => true
    case TakingBack(_, _) => true
    case Reclaiming(offer, replacing, _) => offer.Null? || replacing
    case Resetting(offer, replacing, _) => offer.Null? || replacing
    case Emptying(offer, replacing, _) => offer.Null? || replacing
    case _ => producer.replacing
  }

  function Named(value: X.Value): R.Slot {
    if value.Null? then R.Nothing else R.Names(value.candidate)
  }

  /** What the frame is judging counts as selected already when it will accept it. */
  function ExchangeView(s: X.State, verdict: bool): View
    requires X.InRange(s)
  {
    View(ExchangePhase(s.producer),
      if s.ready == X.NONE then R.Nothing else Named(s.slots[s.ready].value),
      if s.consumer.Judging? && s.slots[s.consumer.slot].value.Lease? && verdict
      then s.selected + [s.slots[s.consumer.slot].value.candidate] else s.selected)
  }

  function ExchangeMove(s: X.State, a: X.Action, verdict: bool): Move {
    match a
    case BeginReplace => Begin(s.calls)
    case ProducerStep => if s.producer.Exchanging? then TakeBack else if s.producer.Announcing? then Offer else Stay
    case BeginSelect => Select(verdict)
    case _ => Stay
  }

  ghost predicate Follows(s: X.State, a: X.Action, verdict: bool)
    requires X.Inv(s) && X.Enabled(s, a) && X.InRange(X.Apply(s, a))
  {
    && Replaces(X.Apply(s, a).producer) && Possible(ExchangeView(s, verdict), ExchangeMove(s, a, verdict))
    && ExchangeView(X.Apply(s, a), verdict) == Moved(ExchangeView(s, verdict), ExchangeMove(s, a, verdict))
  }

  /** The producer writes no slot the frame is judging, or may take. */
  lemma ProducerLeaves(s: X.State)
    requires X.Inv(s) && s.producer != X.ProducerIdle && X.InRange(X.StepProducer(s))
    ensures s.consumer.Judging? ==> X.StepProducer(s).slots[s.consumer.slot].value == s.slots[s.consumer.slot].value
    ensures s.ready != X.NONE && !s.producer.Exchanging? ==>
      X.StepProducer(s).ready == s.ready && X.StepProducer(s).slots[s.ready].value == s.slots[s.ready].value
    ensures s.ready == X.NONE && !s.producer.Announcing? ==> X.StepProducer(s).ready == X.NONE
    ensures X.StepProducer(s).consumer == s.consumer && X.StepProducer(s).selected == s.selected
  {}

  lemma ProducerPhase(s: X.State)
    requires X.Inv(s) && s.producer != X.ProducerIdle && Replaces(s.producer)
    ensures Replaces(X.StepProducer(s).producer)
    ensures ExchangePhase(X.StepProducer(s).producer) ==
      if s.producer.Exchanging? then Offering(s.producer.candidate) else if s.producer.Announcing? then Free else ExchangePhase(s.producer)
  {}

  lemma ProducerMoves(s: X.State, verdict: bool)
    requires X.Inv(s) && s.producer != X.ProducerIdle && X.InRange(X.StepProducer(s)) && Replaces(s.producer)
    ensures Follows(s, X.ProducerStep, verdict)
  {
    ProducerLeaves(s);
    ProducerPhase(s);
  }

  lemma OtherMoves(s: X.State, a: X.Action, verdict: bool)
    requires X.Inv(s) && X.Enabled(s, a) && X.InRange(X.Apply(s, a)) && Replaces(s.producer) && (a.Judge? ==> verdict == a.accept)
    requires !a.ProducerStep? && !a.BeginPublish?
    ensures Follows(s, a, verdict)
  {}

  /** Every step of the exchange is a move of the hand-over. `verdict` is what the frame will make of what it takes: a judging frame comes to
      it, and any other step leaves it open. */
  lemma ExchangeMoves(s: X.State, a: X.Action, verdict: bool)
    requires X.Inv(s) && X.Enabled(s, a) && Replaces(s.producer) && !a.BeginPublish? && (a.Judge? ==> verdict == a.accept)
    ensures X.InRange(X.Apply(s, a)) && Replaces(X.Apply(s, a).producer)
    ensures Possible(ExchangeView(s, verdict), ExchangeMove(s, a, verdict))
    ensures ExchangeView(X.Apply(s, a), verdict) == Moved(ExchangeView(s, verdict), ExchangeMove(s, a, verdict))
  {
    X.StepInv(s, a);
    if a.ProducerStep? { ProducerMoves(s, verdict); } else { OtherMoves(s, a, verdict); }
    assert Follows(s, a, verdict);
  }

  // ---- both together: the coordinator hands over through the exchange ----

  /** `sequences[k]` is the revision that call k of the exchange hands over; `verdict` is what the frame will make of what it judges. */
  datatype Both = Both(r: R.State, x: X.State, sequences: seq<nat>, verdict: bool)

  datatype Act =
    | Assembles(t: nat, a: R.Action)   // any step of the assembly that is not the hand-over's
    | HandsOver                        // Collect ends with a revision, and calls TryReplace
    | Exchanges(step: X.Action)        // any step of the exchange within or beside these calls
    | Takes(verdict: bool)             // TrySelect begins; `verdict` is what it will make of what it takes

  /** The step neither hands over nor selects. */
  predicate Apart(r: R.State, t: nat, a: R.Action)
    requires R.Enabled(r, t, a)
  {
    !a.TakeBack? && !a.Announce? && !a.Select? && (a.EndCollect? ==> r.threads[t].newest.Nothing?)
  }

  /** What lets a step happen: its own thread's state, never the other module's. */
  predicate Enabled(b: Both, act: Act) {
    match act
    case Assembles(t, a) => R.Enabled(b.r, t, a) && Apart(b.r, t, a)
    case HandsOver => R.Enabled(b.r, 0, R.EndCollect) && b.r.threads[0].newest.Names? && X.Enabled(b.x, X.BeginReplace)
    case Exchanges(step) =>
      X.Enabled(b.x, step) && !step.BeginPublish? && !step.BeginReplace? && !step.BeginSelect? && (step.Judge? ==> step.accept == b.verdict)
    case Takes(_) => X.Enabled(b.x, X.BeginSelect)
  }

  /** The assembly's step that a step of the exchange is. */
  function Mirror(x: X.State, act: Act): seq<R.Action> {
    match act
    case Exchanges(ProducerStep) =>
      if x.producer.Exchanging? then [R.TakeBack] else if x.producer.Announcing? then [R.Announce] else []
    case Takes(verdict) => [R.Select(verdict)]
    case _ => []
  }

  // ---- names ----

  function Sequence(sequences: seq<nat>, call: nat): nat {
    if call < |sequences| then sequences[call] else 0
  }

  function Sequences(sequences: seq<nat>, calls: seq<nat>): seq<nat> {
    seq(|calls|, i requires 0 <= i < |calls| => Sequence(sequences, calls[i]))
  }

  function RenamedPhase(p: Phase, sequences: seq<nat>): Phase {
    match p
    case Free => Free
    case Taking(c) => Taking(Sequence(sequences, c))
    case Offering(c) => Offering(Sequence(sequences, c))
  }

  function RenamedSlot(slot: R.Slot, sequences: seq<nat>): R.Slot {
    if slot.Nothing? then slot else R.Names(Sequence(sequences, slot.fragment))
  }

  /** The view with each call named by what it hands over. */
  function Renamed(v: View, sequences: seq<nat>): View {
    View(RenamedPhase(v.phase, sequences), RenamedSlot(v.ready, sequences), Sequences(sequences, v.selected))
  }

  function RenamedMove(m: Move, sequences: seq<nat>): Move {
    if m.Begin? then Begin(Sequence(sequences, m.candidate)) else m
  }

  lemma MovesRenamed(v: View, m: Move, sequences: seq<nat>)
    requires Possible(v, m)
    ensures Possible(Renamed(v, sequences), RenamedMove(m, sequences))
    ensures Renamed(Moved(v, m), sequences) == Moved(Renamed(v, sequences), RenamedMove(m, sequences))
  {
    if m.Select? && !v.ready.Nothing? && m.accept {
      assert Sequences(sequences, v.selected + [v.ready.fragment]) ==
        Sequences(sequences, v.selected) + [Sequence(sequences, v.ready.fragment)];
    }
  }

  /** Only calls made so far are named. */
  predicate Below(v: View, calls: nat) {
    && (!v.phase.Free? ==> v.phase.candidate < calls) && (v.ready.Names? ==> v.ready.fragment < calls)
    && forall i :: 0 <= i < |v.selected| ==> v.selected[i] < calls
  }

  lemma OneMoreName(v: View, sequences: seq<nat>, next: nat)
    requires Below(v, |sequences|)
    ensures Renamed(v, sequences + [next]) == Renamed(v, sequences)
  {
    assert Sequences(sequences + [next], v.selected) == Sequences(sequences, v.selected);
  }

  // ---- what couples them ----

  /** The assembly sees what the exchange does, under the sequences' names; and those are all it published, in order. */
  ghost predicate Coupled(b: Both) {
    && 0 in b.r.threads && X.InRange(b.x) && X.Inv(b.x) && Replaces(b.x.producer)
    && |b.sequences| == b.x.calls == b.r.stats.published
    && (b.sequences != [] ==> b.sequences[|b.sequences| - 1] == b.r.publishedSequence)
    && Below(ExchangeView(b.x, b.verdict), b.x.calls)
    && RevisionView(b.r) == Renamed(ExchangeView(b.x, b.verdict), b.sequences)
  }

  /** So what the exchange does, the assembly can. */
  lemma MirrorEnabled(b: Both, act: Act)
    requires Coupled(b) && Enabled(b, act)
    ensures |Mirror(b.x, act)| <= 1 && forall a :: a in Mirror(b.x, act) ==> R.Enabled(b.r, 0, a)
  {}

  /** The step of both; were the assembly not able to mirror one of the exchange, it would stay behind. */
  function Apply(b: Both, act: Act): Both
    requires X.InRange(b.x) && Enabled(b, act)
  {
    var mirror := Mirror(b.x, act);
    var r := if mirror == [] || !R.Enabled(b.r, 0, mirror[0]) then b.r else R.Apply(b.r, 0, mirror[0]);
    match act
    case Assembles(t, a) => b.(r := R.Apply(b.r, t, a))
    case HandsOver =>
      Both(R.Apply(b.r, 0, R.EndCollect), X.Apply(b.x, X.BeginReplace), b.sequences + [b.r.threads[0].newest.fragment], b.verdict)
    case Exchanges(step) => b.(r := r, x := X.Apply(b.x, step))
    case Takes(verdict) => b.(r := r, x := X.Apply(b.x, X.BeginSelect), verdict := verdict)
  }

  lemma AssemblesCoupled(b: Both, t: nat, a: R.Action)
    requires Coupled(b) && Enabled(b, Assembles(t, a))
    ensures Coupled(Apply(b, Assembles(t, a)))
  {
    RevisionMoves(b.r, t, a);
  }

  lemma HandsOverCoupled(b: Both)
    requires Coupled(b) && Enabled(b, HandsOver)
    ensures Coupled(Apply(b, HandsOver))
  {
    var v, next := ExchangeView(b.x, b.verdict), b.r.threads[0].newest.fragment;
    RevisionMoves(b.r, 0, R.EndCollect);
    ExchangeMoves(b.x, X.BeginReplace, b.verdict);
    X.StepInv(b.x, X.BeginReplace);
    OneMoreName(v, b.sequences, next);
    MovesRenamed(v, Begin(b.x.calls), b.sequences + [next]);
  }

  /** The same move on both sides keeps them coupled. */
  lemma Recoupled(b: Both, e: Both, m: Move)
    requires Coupled(b) && X.InRange(e.x) && X.Inv(e.x) && Replaces(e.x.producer) && 0 in e.r.threads && !m.Begin?
    requires e.x.calls == b.x.calls && e.sequences == b.sequences
    requires e.r.stats.published == b.r.stats.published && e.r.publishedSequence == b.r.publishedSequence
    requires var v := ExchangeView(b.x, b.verdict); Possible(v, m) && ExchangeView(e.x, e.verdict) == Moved(v, m)
    requires Possible(RevisionView(b.r), m) ==> RevisionView(e.r) == Moved(RevisionView(b.r), m)
    ensures Coupled(e)
  {
    MovesRenamed(ExchangeView(b.x, b.verdict), m, b.sequences);
  }

  lemma ExchangeGoesOn(x: X.State, a: X.Action, verdict: bool)
    requires X.InRange(x) && X.Inv(x) && X.Enabled(x, a) && Replaces(x.producer) && !a.BeginPublish? && !a.BeginReplace?
    requires a.Judge? ==> verdict == a.accept
    ensures var x' := X.Apply(x, a); X.InRange(x') && X.Inv(x') && Replaces(x'.producer) && x'.calls == x.calls
    ensures Possible(ExchangeView(x, verdict), ExchangeMove(x, a, verdict))
    ensures ExchangeView(X.Apply(x, a), verdict) == Moved(ExchangeView(x, verdict), ExchangeMove(x, a, verdict))
  {
    X.StepInv(x, a);
    ExchangeMoves(x, a, verdict);
    SameCalls(x, a);
  }

  lemma SameCalls(x: X.State, a: X.Action)
    requires X.InRange(x) && X.Enabled(x, a) && !a.BeginPublish? && !a.BeginReplace?
    ensures X.Apply(x, a).calls == x.calls
  {}

  lemma AssemblyGoesOn(r: R.State, a: R.Action)
    requires R.Enabled(r, 0, a) && 0 in r.threads && (a.TakeBack? || a.Announce? || a.Select?)
    ensures var r' := R.Apply(r, 0, a);
      0 in r'.threads && r'.stats.published == r.stats.published && r'.publishedSequence == r.publishedSequence
    ensures Possible(RevisionView(r), RevisionMove(r, 0, a))
    ensures RevisionView(R.Apply(r, 0, a)) == Moved(RevisionView(r), RevisionMove(r, 0, a))
  {
    RevisionMoves(r, 0, a);
  }

  lemma ExchangesCoupled(b: Both, a: X.Action)
    requires Coupled(b) && Enabled(b, Exchanges(a))
    ensures Coupled(Apply(b, Exchanges(a)))
  {
    var mirror := Mirror(b.x, Exchanges(a));
    ExchangeGoesOn(b.x, a, b.verdict);
    MirrorEnabled(b, Exchanges(a));
    if mirror != [] { AssemblyGoesOn(b.r, mirror[0]); }
    Recoupled(b, Apply(b, Exchanges(a)), ExchangeMove(b.x, a, b.verdict));
  }

  /** A frame that judges nothing has no verdict to foretell. */
  lemma VerdictOpen(x: X.State, v: bool, w: bool)
    requires X.InRange(x) && !x.consumer.Judging?
    ensures ExchangeView(x, v) == ExchangeView(x, w)
  {}

  lemma TakesCoupled(b: Both, verdict: bool)
    requires Coupled(b) && Enabled(b, Takes(verdict))
    ensures Coupled(Apply(b, Takes(verdict)))
  {
    VerdictOpen(b.x, verdict, b.verdict);
    ExchangeGoesOn(b.x, X.BeginSelect, verdict);
    AssemblyGoesOn(b.r, R.Select(verdict));
    Recoupled(b, Apply(b, Takes(verdict)), Select(verdict));
  }

  lemma StepCoupled(b: Both, act: Act)
    requires Coupled(b) && Enabled(b, act)
    ensures Coupled(Apply(b, act))
  {
    match act
    case Assembles(t, a) => AssemblesCoupled(b, t, a);
    case HandsOver => HandsOverCoupled(b);
    case Exchanges(step) => ExchangesCoupled(b, step);
    case Takes(verdict) => TakesCoupled(b, verdict);
  }

  // ---- runs of both ----

  predicate Init(b: Both) {
    R.Init(b.r) && X.Init(b.x) && b.sequences == []
  }

  lemma InitCoupled(b: Both)
    requires Init(b)
    ensures Coupled(b)
  {
    X.RunInv([b.x], [], 0);
    assert Sequences([], []) == [];
  }

  predicate IsRun(run: seq<Both>, acts: seq<Act>) {
    && |run| == |acts| + 1 && Init(run[0])
    && forall i :: 0 <= i < |acts| ==> X.InRange(run[i].x) && Enabled(run[i], acts[i]) && run[i + 1] == Apply(run[i], acts[i])
  }

  lemma {:induction false} RunCoupled(run: seq<Both>, acts: seq<Act>, i: nat)
    requires IsRun(run, acts) && i < |run|
    ensures Coupled(run[i])
  {
    if i == 0 {
      InitCoupled(run[0]);
    } else {
      RunCoupled(run, acts, i - 1);
      StepCoupled(run[i - 1], acts[i - 1]);
    }
  }

  lemma OneMoreStep(run: seq<R.State>, steps: seq<R.Step>, t: nat, a: R.Action)
    requires R.IsRun(run, steps) && R.Enabled(run[|steps|], t, a)
    ensures R.IsRun(run + [R.Apply(run[|steps|], t, a)], steps + [R.Step(t, a)])
  {}

  /** The assembly's step that this one is. */
  function StepOf(b: Both, act: Act): seq<R.Step> {
    match act
    case Assembles(t, a) => [R.Step(t, a)]
    case HandsOver => [R.Step(0, R.EndCollect)]
    case _ => if Mirror(b.x, act) == [] then [] else [R.Step(0, Mirror(b.x, act)[0])]
  }

  lemma StepsOf(b: Both, act: Act)
    requires Coupled(b) && Enabled(b, act)
    ensures var steps := StepOf(b, act);
      if steps == [] then Apply(b, act).r == b.r
      else |steps| == 1 && R.Enabled(b.r, steps[0].thread, steps[0].action) && Apply(b, act).r == R.Apply(b.r, steps[0].thread, steps[0].action)
  {
    MirrorEnabled(b, act);
  }

  /** Seen from the assembly, a run of both is a run of its own. */
  lemma {:induction false} AssemblyRun(run: seq<Both>, acts: seq<Act>, i: nat) returns (states: seq<R.State>, steps: seq<R.Step>)
    requires IsRun(run, acts) && i < |run|
    ensures R.IsRun(states, steps) && states[|steps|] == run[i].r
  {
    if i == 0 {
      states, steps := [run[0].r], [];
    } else {
      states, steps := AssemblyRun(run, acts, i - 1);
      RunCoupled(run, acts, i - 1);
      StepsOf(run[i - 1], acts[i - 1]);
      var more := StepOf(run[i - 1], acts[i - 1]);
      if more != [] {
        OneMoreStep(states, steps, more[0].thread, more[0].action);
        states, steps := states + [run[i].r], steps + more;
      }
    }
  }

  lemma OneMoreExchange(states: seq<X.State>, steps: seq<X.Action>, a: X.Action)
    requires X.IsRun(states, steps) && X.InRange(states[|steps|]) && X.Enabled(states[|steps|], a)
    ensures X.IsRun(states + [X.Apply(states[|steps|], a)], steps + [a])
  {}

  /** Seen from the exchange, too. */
  lemma {:induction false} ExchangeRun(run: seq<Both>, acts: seq<Act>, i: nat) returns (states: seq<X.State>, steps: seq<X.Action>)
    requires IsRun(run, acts) && i < |run|
    ensures X.IsRun(states, steps) && states[|steps|] == run[i].x
  {
    if i == 0 {
      states, steps := [run[0].x], [];
    } else {
      states, steps := ExchangeRun(run, acts, i - 1);
      var act := acts[i - 1];
      if !act.Assembles? {
        var a := if act.HandsOver? then X.BeginReplace else if act.Takes? then X.BeginSelect else act.step;
        OneMoreExchange(states, steps, a);
        states, steps := states + [run[i].x], steps + [a];
      }
    }
  }

  /** In every interleaving, what the frame selected from the exchange are revisions of the assembly, each coherent, each newer than the one
      before; and what it reads as active is the newest of them. */
  lemma ExchangedIsCoherent(run: seq<Both>, acts: seq<Act>, i: nat)
    requires IsRun(run, acts) && i < |run|
    ensures var b := run[i];
      && (forall c :: c in b.x.selected ==> c < |b.sequences| && RR.Coherent(b.r, b.sequences[c]))
      && (forall j, k :: 0 <= j < k < |b.x.selected| ==>
            Sequence(b.sequences, b.x.selected[j]) < Sequence(b.sequences, b.x.selected[k]))
      && (!b.x.consumer.Judging? ==> b.r.selected == Sequences(b.sequences, b.x.selected))
  {
    var b := run[i];
    RunCoupled(run, acts, i);
    var states, steps := AssemblyRun(run, acts, i);
    var seen := ExchangeView(b.x, b.verdict).selected;
    assert b.r.selected == Sequences(b.sequences, seen) && b.x.selected <= seen;
    forall k | 0 <= k < |b.x.selected|
      ensures b.x.selected[k] < |b.sequences| && b.r.selected[k] == Sequence(b.sequences, b.x.selected[k])
      ensures RR.Coherent(b.r, b.sequences[b.x.selected[k]])
    {
      assert seen[k] == b.x.selected[k];
      RR.SelectedIsCoherent(states, steps, |steps|, b.r.selected[k]);
    }
    forall j, k | 0 <= j < k < |b.x.selected| ensures b.r.selected[j] < b.r.selected[k] {
      RR.SelectedIncreases(states, steps, |steps|, j, k);
    }
  }

  lemma ActiveIsSelected(run: seq<Both>, acts: seq<Act>, i: nat)
    requires IsRun(run, acts) && i < |run| && run[i].x.active != X.NONE && run[i].x.consumer.ConsumerIdle?
    ensures var x := run[i].x; X.InRange(x) && x.selected != [] && x.slots[x.active].value == X.Lease(x.selected[|x.selected| - 1])
  {
    var states, steps := ExchangeRun(run, acts, i);
    X.ActiveIsNewestSelected(states, steps, |steps|);
  }

  /** So is what it reads as active: the newest it selected. */
  lemma ActiveIsCoherent(run: seq<Both>, acts: seq<Act>, i: nat) returns (c: nat)
    requires IsRun(run, acts) && i < |run| && run[i].x.active != X.NONE && run[i].x.consumer.ConsumerIdle?
    ensures var b := run[i];
      && X.InRange(b.x) && b.x.slots[b.x.active].value == X.Lease(c) && c < |b.sequences| && RR.Coherent(b.r, b.sequences[c])
      && b.r.selected != [] && b.sequences[c] == b.r.selected[|b.r.selected| - 1]
  {
    ActiveIsSelected(run, acts, i);
    ExchangedIsCoherent(run, acts, i);
    c := run[i].x.selected[|run[i].x.selected| - 1];
    assert c in run[i].x.selected;
  }
}
