/** BuildFromPredecessor takes exactly the steps PredecessorRun is about: a published version, a backing left as it was, or one that
    holds nothing. */
module PredecessorRefinement {
  import opened Bytes
  import opened ByteIntervals
  import opened BackingMemory
  import opened PredecessorBuild
  import R = PredecessorRun

  ghost function Held(backing: Backing): R.Content
    reads backing`memory, backing`contentEpoch
  {
    R.Content(backing.memory, backing.contentEpoch, backing.capacityClass)
  }

  /** Copies read only what they name: a source and what a version names of it give the same bytes. */
  lemma {:induction false} CopiesOfAPrefix(memory: seq<byte>, source: seq<byte>, bytes: seq<byte>, copies: seq<Interval>)
    requires |bytes| <= |source| && source[..|bytes|] == bytes
    requires forall c :: c in copies ==> c.begin <= c.end <= |bytes|
    ensures CopyAll(memory, source, copies) == CopyAll(memory, bytes, copies)
  {
    if copies != [] {
      var c := copies[|copies| - 1];
      assert forall d :: d in copies[..|copies| - 1] ==> d in copies;
      CopiesOfAPrefix(memory, source, bytes, copies[..|copies| - 1]);
      assert source[c.begin..c.end] == bytes[c.begin..c.end];
    }
  }

  /** The source's backing shows the version the input succeeds, which the run holds. */
  ghost predicate SourceIs(s: R.State, input: CopyInput, previous: Option<R.Version>, source: Backing?)
    reads source
  {
    && R.Succeeds(input, previous)
    && (previous.Some? ==>
          && previous.value in s.versions && source != null && |previous.value.bytes| <= |source.memory|
          && source.memory[..|previous.value.bytes|] == previous.value.bytes)
  }

  /** The copies of a plan lie in the predecessor's bytes, so the step's result is the build's. */
  lemma PlansAgree(input: CopyInput, isNew: bool, held: nat, capacityClass: nat, memory: seq<byte>, source: seq<byte>, bytes: seq<byte>, plan: Plan)
    requires PlanFor(plan, input, isNew, held, capacityClass)
    requires CopyLimit(input) <= |bytes| <= |source| && source[..|bytes|] == bytes
    ensures forall c :: c in plan.copies ==> c.begin <= c.end <= |bytes| <= |source|
    ensures Executed(memory, source, plan) == Executed(memory, bytes, plan)
  {
    CopiesInSource(plan, CopyLimit(input), bytes);
    CopiesOfAPrefix(memory, source, bytes, plan.copies);
  }

  /** The build keeps the chain's promise: its sequence names no other contents. */
  predicate KeepsNames(s: R.State, input: CopyInput, memory: seq<byte>) {
    input.writeSequence != 0 &&
    (input.writeSequence in s.named ==>
       |s.named[input.writeSequence]| == UsedBytes(input) && R.Shows(memory, s.named[input.writeSequence]))
  }

  lemma SameBytes(memory: seq<byte>, bytes: seq<byte>, used: nat)
    requires used <= |memory|
    ensures bytes == seq(used, i requires 0 <= i < used => At(memory, i)) <==> |bytes| == used && R.Shows(memory, bytes)
  {}

  lemma PublishIsEnabled(s: R.State, a: R.Action)
    requires a.Publish? && a.id in s.backings && !R.Leased(s, a.id) && R.Succeeds(a.input, a.previous)
    requires a.previous.Some? ==> a.previous.value in s.versions
    requires UsedBytes(a.input) <= |s.backings[a.id].memory|
    requires PlanFor(a.plan, a.input, a.isNew, s.backings[a.id].epoch, s.backings[a.id].capacityClass)
    requires forall c :: c in a.plan.copies ==> c.begin <= c.end <= |R.SourceBytes(a.previous)|
    requires R.Honest(s.named, a.input, s.backings[a.id].epoch, R.SourceBytes(a.previous))
    ensures R.Enabled(s, a) <==> KeepsNames(s, a.input, R.After(s, a))
  {
    var content := s.backings[a.id];
    ExecutedByte(a.input, a.isNew, content.epoch, content.capacityClass, content.memory, R.SourceBytes(a.previous), a.plan, 0);
    if a.input.writeSequence in s.named { SameBytes(R.After(s, a), s.named[a.input.writeSequence], UsedBytes(a.input)); }
  }

  /** One build of a chain: a published version is a Publish exactly when its sequence names no other contents. */
  method BuildIsAStep(input: CopyInput, source: Backing?, backing: Backing, leased: Option<Leased>, canSuspend: bool, env: Environment,
      ghost s: R.State, ghost previous: Option<R.Version>, ghost id: nat) returns (outcome: CopyOutcome, ghost a: R.Action)
    requires SourceIs(s, input, previous, source) && source != backing && |backing.memory| == backing.byteCapacity
    requires id in s.backings && s.backings[id] == Held(backing) && !R.Leased(s, id)
    requires R.Honest(s.named, input, backing.contentEpoch, R.SourceBytes(previous))
    modifies backing
    ensures outcome.Ready? ==> a.Publish? && a.input == input && a.previous == previous && a.id == id
    ensures outcome.Ready? ==> (R.Enabled(s, a) <==> KeepsNames(s, input, backing.memory))
    ensures outcome.Ready? && R.Enabled(s, a) ==> R.Apply(s, a).backings[id] == Held(backing)
    ensures !outcome.Ready? ==> a == R.Abandoned(id, backing.memory)
    ensures !outcome.Ready? ==> Held(backing) == s.backings[id] || (R.Enabled(s, a) && R.Apply(s, a).backings[id] == Held(backing))
  {
    ghost var memory, held, bytes := backing.memory, backing.contentEpoch, R.SourceBytes(previous);
    ghost var plan: Plan;
    outcome, plan := BuildFromPredecessor(input, source, backing, leased, canSuspend, env);
    a := R.Abandoned(id, backing.memory);
    if outcome.Ready? {
      a := R.Publish(input, previous, id, leased.value.isNew, plan);
      PlansAgree(input, leased.value.isNew, held, backing.capacityClass, memory, SourceOf(source), bytes, plan);
      PublishIsEnabled(s, a);
    }
  }
}
