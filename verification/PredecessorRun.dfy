/** Predecessor copies over whole runs of a chain: backings recycled with old bytes in them, builds that fail halfway, versions held
    for any time. `named` is what each write sequence stands for: its version's used bytes. A build's host must keep two promises:
    `changedSince` covers every byte that differs (include/ORGModuleServices/VersionedBufferBuild.h:83-85), and one sequence never
    names two contents. */
module PredecessorRun {
  import opened Bytes
  import opened BackingMemory
  import opened ByteIntervals
  import opened DeltaResolution
  import opened PredecessorBuild

  datatype Content = Content(memory: seq<byte>, epoch: nat, capacityClass: nat)

  /** A published version that someone holds: its used bytes, as published. */
  datatype Version = Version(sequence: nat, backing: nat, capacityClass: nat, elementCount: nat, elementStride: nat, bytes: seq<byte>)

  datatype State = State(named: map<nat, seq<byte>>, backings: map<nat, Content>, versions: set<Version>)

  datatype Action =
    | NewBacking(id: nat, capacityClass: nat, memory: seq<byte>)
    | Publish(input: CopyInput, previous: Option<Version>, id: nat, isNew: bool, plan: Plan)
    | Abandoned(id: nat, memory: seq<byte>)     // a build that failed after it began to write
    | Release(v: Version)

  predicate Leased(s: State, id: nat) {
    exists v :: v in s.versions && v.backing == id
  }

  /** The input names this version as its predecessor. */
  predicate Succeeds(input: CopyInput, previous: Option<Version>) {
    && (input.previous.Some? <==> previous.Some?)
    && (previous.Some? ==>
          && input.previous.value == Predecessor(true, previous.value.elementStride, previous.value.elementCount,
               previous.value.capacityClass, previous.value.sequence)
          && |previous.value.bytes| == previous.value.elementCount * previous.value.elementStride)
  }

  /** Between `held` and the predecessor only bytes in the ranges changed or were added. */
  predicate Honest(named: map<nat, seq<byte>>, input: CopyInput, held: nat, source: seq<byte>) {
    held in named && input.changedSince.Some? && input.changedSince.value(held).Some? && CopyLimit(input) <= |source| ==>
      forall i :: 0 <= i < CopyLimit(input) && !InRanges(input.changedSince.value(held).value, i) ==>
        i < |named[held]| && named[held][i] == source[i]
  }

  function SourceBytes(previous: Option<Version>): seq<byte> {
    if previous.Some? then previous.value.bytes else []
  }

  ghost predicate Enabled(s: State, a: Action) {
    match a
    case NewBacking(id, _, _) => id !in s.backings
    case Publish(input, previous, id, isNew, plan) =>
      && id in s.backings && !Leased(s, id) && (previous.Some? ==> previous.value in s.versions) && Succeeds(input, previous)
      && input.writeSequence != 0 && UsedBytes(input) <= |s.backings[id].memory|
      && PlanFor(plan, input, isNew, s.backings[id].epoch, s.backings[id].capacityClass)
      && (forall c :: c in plan.copies ==> c.begin <= c.end <= |SourceBytes(previous)|)
      && Honest(s.named, input, s.backings[id].epoch, SourceBytes(previous))
      && (input.writeSequence in s.named ==> s.named[input.writeSequence] == Result(s, a))
    case Abandoned(id, memory) => id in s.backings && !Leased(s, id)
    case Release(v) => v in s.versions
  }

  /** The backing's memory after the build, and the version's bytes. */
  function After(s: State, a: Action): seq<byte>
    requires a.Publish? && a.id in s.backings && a.plan.Plan?
    requires forall c :: c in a.plan.copies ==> c.begin <= c.end <= |SourceBytes(a.previous)|
  {
    Executed(s.backings[a.id].memory, SourceBytes(a.previous), a.plan)
  }

  function Result(s: State, a: Action): seq<byte>
    requires a.Publish? && a.id in s.backings && a.plan.Plan?
    requires forall c :: c in a.plan.copies ==> c.begin <= c.end <= |SourceBytes(a.previous)|
  {
    seq(UsedBytes(a.input), i requires 0 <= i < UsedBytes(a.input) => At(After(s, a), i))
  }

  function NewVersion(s: State, a: Action): Version
    requires a.Publish? && a.id in s.backings && a.plan.Plan?
    requires forall c :: c in a.plan.copies ==> c.begin <= c.end <= |SourceBytes(a.previous)|
  {
    Version(a.input.writeSequence, a.id, s.backings[a.id].capacityClass, a.input.elementCount, a.input.elementStride, Result(s, a))
  }

  ghost function Apply(s: State, a: Action): State
    requires Enabled(s, a)
  {
    match a
    case NewBacking(id, capacityClass, memory) => s.(backings := s.backings[id := Content(memory, 0, capacityClass)])
    case Publish(input, previous, id, isNew, plan) =>
      s.(named := s.named[input.writeSequence := Result(s, a)],
         backings := s.backings[id := Content(After(s, a), input.writeSequence, s.backings[id].capacityClass)],
         versions := s.versions + {NewVersion(s, a)})
    case Abandoned(id, memory) => s.(backings := s.backings[id := Content(memory, 0, s.backings[id].capacityClass)])
    case Release(v) => s.(versions := s.versions - {v})
  }

  predicate Shows(memory: seq<byte>, bytes: seq<byte>) {
    |bytes| <= |memory| && forall i :: 0 <= i < |bytes| ==> memory[i] == bytes[i]
  }

  /** A backing with an epoch shows what that epoch names. */
  ghost predicate Sound(named: map<nat, seq<byte>>, content: Content) {
    content.epoch != 0 ==> content.epoch in named && Shows(content.memory, named[content.epoch])
  }

  ghost predicate Intact(s: State, v: Version) {
    && v.backing in s.backings && Shows(s.backings[v.backing].memory, v.bytes)
    && v.sequence in s.named && s.named[v.sequence] == v.bytes
    && |v.bytes| == v.elementCount * v.elementStride
  }

  ghost predicate Inv(s: State) {
    && (forall id :: id in s.backings ==> Sound(s.named, s.backings[id]))
    && (forall v :: v in s.versions ==> Intact(s, v))
    && (forall v, u :: v in s.versions && u in s.versions && v.backing == u.backing ==> v == u)
  }

  /** The chain's promises are what the build trusts. */
  lemma PromisesSuffice(s: State, a: Action)
    requires Inv(s) && Enabled(s, a) && a.Publish?
    ensures var content := s.backings[a.id];
      && CopyLimit(a.input) <= |SourceBytes(a.previous)|
      && Trusted(a.input, a.isNew, content.epoch, content.capacityClass, content.memory, SourceBytes(a.previous))
  {
    var content, source, held := s.backings[a.id], SourceBytes(a.previous), s.backings[a.id].epoch;
    if a.previous.Some? {
      forall i | 0 <= i < CopyLimit(a.input) && !LacksOf(a.input, a.isNew, held, content.capacityClass, i)
        ensures At(content.memory, i) == source[i]
      {
        assert Sound(s.named, content) && Intact(s, a.previous.value);
        assert held != a.previous.value.sequence ==> !InRanges(a.input.changedSince.value(held).value, i);
      }
    }
  }

  lemma AfterLength(s: State, a: Action)
    requires Enabled(s, a) && a.Publish?
    ensures |s.backings[a.id].memory| <= |After(s, a)|
  {
    var content := s.backings[a.id];
    ExecutedByte(a.input, a.isNew, content.epoch, content.capacityClass, content.memory, SourceBytes(a.previous), a.plan, 0);
  }

  lemma StepInv(s: State, a: Action)
    requires Inv(s) && Enabled(s, a)
    ensures Inv(Apply(s, a))
  {
    var s' := Apply(s, a);
    if a.Publish? {
      AfterLength(s, a);
      forall i | 0 <= i < |Result(s, a)| ensures After(s, a)[i] == Result(s, a)[i] {}
      assert Sound(s'.named, s'.backings[a.id]);
    }
    forall v | v in s'.versions ensures Intact(s', v) {
      if v in s.versions { assert Intact(s, v); assert Leased(s, v.backing); }
    }
  }

  predicate Init(s: State) {
    s.named == map[] && s.backings == map[] && s.versions == {}
  }

  ghost predicate IsRun(run: seq<State>, acts: seq<Action>) {
    && |run| == |acts| + 1 && Init(run[0])
    && forall i :: 0 <= i < |acts| ==> Enabled(run[i], acts[i]) && run[i + 1] == Apply(run[i], acts[i])
  }

  lemma {:induction false} RunInv(run: seq<State>, acts: seq<Action>, i: nat)
    requires IsRun(run, acts) && i < |run|
    ensures Inv(run[i])
  {
    if i > 0 {
      RunInv(run, acts, i - 1);
      StepInv(run[i - 1], acts[i - 1]);
    }
  }

  /** Whatever the backing went through before - fresh, stale, of another class, caught up, or left by a failed build - a published
      version holds its delta's last writes over its predecessor's bytes. */
  lemma PublishedIsRight(run: seq<State>, acts: seq<Action>, i: nat, k: nat)
    requires IsRun(run, acts) && i < |acts| && acts[i].Publish? && Determined(acts[i].input, k) && k < UsedBytes(acts[i].input)
    ensures NewVersion(run[i], acts[i]) in run[i + 1].versions
    ensures CopyLimit(acts[i].input) <= |SourceBytes(acts[i].previous)|
    ensures NewVersion(run[i], acts[i]).bytes[k] == Expected(acts[i].input, SourceBytes(acts[i].previous), k)
  {
    RunInv(run, acts, i);
    var s, a := run[i], acts[i];
    var content := s.backings[a.id];
    PromisesSuffice(s, a);
    VersionIsRight(a.input, a.isNew, content.epoch, content.capacityClass, content.memory, SourceBytes(a.previous), a.plan);
  }

  /** And it shows those bytes for as long as someone holds it. */
  lemma HeldVersionsStay(run: seq<State>, acts: seq<Action>, i: nat, v: Version)
    requires IsRun(run, acts) && i < |run| && v in run[i].versions
    ensures v.backing in run[i].backings && |v.bytes| <= |run[i].backings[v.backing].memory|
    ensures run[i].backings[v.backing].memory[..|v.bytes|] == v.bytes
  {
    RunInv(run, acts, i);
    assert Intact(run[i], v);
  }

  // ---- what the calls leave ----

  /** By the first n steps a build published the version, and it was not released since. */
  ghost predicate IsHeld(run: seq<State>, acts: seq<Action>, n: nat, v: Version)
    requires IsRun(run, acts) && n < |run|
    decreases n
  {
    && n != 0
    && (|| (acts[n - 1].Publish? && v == NewVersion(run[n - 1], acts[n - 1]))
        || (IsHeld(run, acts, n - 1, v) && acts[n - 1] != Release(v)))
  }

  lemma StepHeld(s: State, a: Action, v: Version)
    requires Enabled(s, a)
    ensures v in Apply(s, a).versions <==> (a.Publish? && v == NewVersion(s, a)) || (v in s.versions && a != Release(v))
  {}

  /** The versions are those published and not released. */
  lemma {:induction false} VersionsFromCalls(run: seq<State>, acts: seq<Action>, n: nat, v: Version)
    requires IsRun(run, acts) && n < |run|
    ensures v in run[n].versions <==> IsHeld(run, acts, n, v)
  {
    if n > 0 {
      VersionsFromCalls(run, acts, n - 1, v);
      StepHeld(run[n - 1], acts[n - 1], v);
    }
  }

  predicate Touches(a: Action, id: nat) {
    match a
    case NewBacking(k, _, _) => k == id
    case Publish(_, _, k, _, _) => k == id
    case Abandoned(k, _) => k == id
    case Release(_) => false
  }

  lemma StepBacking(s: State, a: Action, id: nat)
    requires Enabled(s, a) && id in s.backings && !Touches(a, id)
    ensures id in Apply(s, a).backings && Apply(s, a).backings[id] == s.backings[id]
  {}

  /** What the pool or a failed build left in a backing is there until something touches it again, and is nobody's version. */
  lemma {:induction false} BytesLeft(run: seq<State>, acts: seq<Action>, i: nat, j: nat, id: nat)
    requires IsRun(run, acts) && i < j < |run| && (forall k :: i < k < j ==> !Touches(acts[k], id))
    requires (acts[i].NewBacking? || acts[i].Abandoned?) && acts[i].id == id
    ensures id in run[j].backings && run[j].backings[id].memory == acts[i].memory && run[j].backings[id].epoch == 0
    ensures run[j].backings[id].capacityClass ==
      if acts[i].NewBacking? then acts[i].capacityClass else run[i].backings[id].capacityClass
    decreases j
  {
    if i + 1 < j {
      BytesLeft(run, acts, i, j - 1, id);
      StepBacking(run[j - 1], acts[j - 1], id);
    } else {
      assert run[j] == Apply(run[i], acts[i]);
    }
  }
}
