/** A versioned buffer's build by predecessor copy (src/VersionedBufferBuild.cpp, BuildFromPredecessor): what the leased backing lacks
    of the predecessor is copied from the predecessor's backing, and the delta is uploaded over it.

    Copies and uploads land at once, in queue order; the host's answers are the `Environment`. */
module PredecessorBuild {
  import opened Bytes
  import opened ByteIntervals
  import opened DeltaResolution
  import opened BackingMemory

  const MAX_COUNT: nat := 0xffff_ffff_ffff_ffff

  datatype ByteRange = ByteRange(offset: nat, size: nat)

  /** A write the host emits: `data` at `offset`, from a null pointer or not. */
  datatype Emitted = Emitted(isNull: bool, piece: Piece)

  /** The version before, still leased: its extents, its class and its sequence. */
  datatype Predecessor = Predecessor(hasResource: bool, elementStride: nat, elementCount: nat, capacity: nat, writeSequence: nat)

  type ChangedSince = nat -> Option<seq<ByteRange>>

  datatype CopyInput = CopyInput(
    hasService: bool,
    hasPool: bool,
    hasEmit: bool,
    gpuWritten: bool,
    writeSequence: nat,
    elementStride: nat,
    elementCount: nat,
    capacity: nat,
    previous: Option<Predecessor>,
    emitted: seq<Emitted>,
    changedSince: Option<ChangedSince>)

  function UsedBytes(input: CopyInput): nat {
    input.elementCount * input.elementStride
  }

  /** How much of the predecessor the version keeps. */
  function CopyLimit(input: CopyInput): nat {
    if input.previous.None? then 0
    else Min(input.previous.value.elementCount * input.previous.value.elementStride, UsedBytes(input))
  }

  predicate InRanges(ranges: seq<ByteRange>, i: int) {
    exists r :: r in ranges && r.offset <= i < r.offset + r.size
  }

  /** The emitted writes that carry bytes. */
  function DeltaOf(emitted: seq<Emitted>): seq<Piece> {
    if emitted == [] then []
    else
      var e := emitted[|emitted| - 1];
      DeltaOf(emitted[..|emitted| - 1]) + if e.piece.data == [] then [] else [e.piece]
  }

  predicate DeltaInRange(emitted: seq<Emitted>, used: nat) {
    forall e :: e in emitted && e.piece.data != [] ==> !e.isNull && e.piece.offset + |e.piece.data| <= used
  }

  method CollectDelta(emitted: seq<Emitted>, used: nat) returns (writes: seq<Piece>, inRange: bool)
    ensures inRange <==> DeltaInRange(emitted, used)
    ensures inRange ==> writes == DeltaOf(emitted)
  {
    writes, inRange := [], true;
    for k := 0 to |emitted|
      invariant inRange <==> DeltaInRange(emitted[..k], used)
      invariant inRange ==> writes == DeltaOf(emitted[..k])
    {
      var e := emitted[k];
      assert emitted[..k + 1] == emitted[..k] + [e] && emitted[..k + 1][..k] == emitted[..k];
      if e.piece.data == [] { continue; }
      if e.isNull || e.piece.offset > used || |e.piece.data| > used - e.piece.offset {
        assert e in emitted[..k + 1];
        inRange := false;
        continue;
      }
      writes := writes + [e.piece];
    }
    assert emitted[..|emitted|] == emitted;
  }

  lemma {:induction false} DeltaStaysInRange(emitted: seq<Emitted>, used: nat, i: int)
    requires DeltaInRange(emitted, used) && CoveredFrom(DeltaOf(emitted), 0, i)
    ensures 0 <= i < used
  {
    var e, before := emitted[|emitted| - 1], emitted[..|emitted| - 1];
    var j :| 0 <= j < |DeltaOf(emitted)| && PieceHas(DeltaOf(emitted)[j], i);
    if j < |DeltaOf(before)| {
      assert PieceHas(DeltaOf(before)[j], i);
      DeltaStaysInRange(before, used, i);
    }
  }

  // ---- what the backing lacks ----

  /** The predecessor is copied whole. */
  predicate CopiesWhole(isNew: bool, held: nat, sameClass: bool, previous: nat, changedSince: Option<ChangedSince>) {
    || isNew || held == 0 || held > previous || !sameClass
    || (held != previous && (changedSince.None? || changedSince.value(held).None?))
  }

  /** Byte i of the predecessor may be missing from the backing. */
  predicate Lacks(isNew: bool, held: nat, sameClass: bool, previous: nat, changedSince: Option<ChangedSince>, i: int) {
    || CopiesWhole(isNew, held, sameClass, previous, changedSince)
    || (held != previous && InRanges(changedSince.value(held).value, i))
  }

  method Missing(isNew: bool, held: nat, sameClass: bool, previous: nat, changedSince: Option<ChangedSince>, limit: nat)
      returns (missing: ByteIntervals, whole: bool)
    ensures fresh(missing) && Canonical(missing.intervals)
    ensures whole <==> CopiesWhole(isNew, held, sameClass, previous, changedSince)
    ensures forall i :: Has(missing.intervals, i) <==> 0 <= i < limit && Lacks(isNew, held, sameClass, previous, changedSince, i)
  {
    missing := new ByteIntervals();
    whole := isNew || held == 0 || held > previous || !sameClass;
    if !whole && held != previous {
      var changed: Option<seq<ByteRange>> := if changedSince.Some? then changedSince.value(held) else None;
      if changed.None? {
        whole := true;
      } else {
        AddChanged(missing, changed.value, limit);
      }
    }
    if whole { missing.Add(0, limit); }
  }

  method AddChanged(missing: ByteIntervals, changed: seq<ByteRange>, limit: nat)
    requires missing.intervals == []
    modifies missing
    ensures Canonical(missing.intervals)
    ensures forall i :: Has(missing.intervals, i) <==> 0 <= i < limit && InRanges(changed, i)
  {
    for k := 0 to |changed|
      invariant Canonical(missing.intervals)
      invariant forall i :: Has(missing.intervals, i) <==> 0 <= i < limit && InRanges(changed[..k], i)
    {
      var range := changed[k];
      var begin := Min(range.offset, limit);
      missing.Add(begin, begin + Min(range.size, limit - begin));
      InRangesPush(changed, k);
    }
    assert changed[..|changed|] == changed;
  }

  lemma InRangesPush(changed: seq<ByteRange>, k: nat)
    requires k < |changed|
    ensures forall i :: InRanges(changed[..k + 1], i) <==>
      InRanges(changed[..k], i) || changed[k].offset <= i < changed[k].offset + changed[k].size
  {
    assert changed[..k + 1] == changed[..k] + [changed[k]];
    forall i ensures InRanges(changed[..k + 1], i) <==>
      InRanges(changed[..k], i) || changed[k].offset <= i < changed[k].offset + changed[k].size
    {
      assert changed[k] in changed[..k + 1];
      assert forall r :: r in changed[..k] ==> r in changed[..k + 1];
    }
  }

  /** The missing bytes less the delta's, in order. */
  method Copies(missing: ByteIntervals, delta: ByteIntervals) returns (copies: seq<Interval>)
    requires Canonical(missing.intervals) && Canonical(delta.intervals)
    ensures Canonical(copies)
    ensures forall i :: Has(copies, i) <==> Has(missing.intervals, i) && !Has(delta.intervals, i)
  {
    copies := [];
    var s := missing.intervals;
    for k := 0 to |s|
      invariant Canonical(copies) && forall c :: c in copies ==> k > 0 && c.end <= s[k - 1].end
      invariant forall i :: Has(copies, i) <==> Has(s[..k], i) && !Has(delta.intervals, i)
    {
      var gaps := delta.ForEachGap(s[k].begin, s[k].end);
      assert s[..k + 1] == s[..k] + [s[k]];
      PushedHas(s[..k], s[k]);
      AppendGaps(copies, gaps, s[k]);
      copies := copies + gaps;
    }
    assert s[..|s|] == s;
  }

  lemma AppendGaps(copies: seq<Interval>, gaps: seq<Interval>, v: Interval)
    requires Canonical(copies) && Canonical(gaps) && (forall c :: c in copies ==> c.end < v.begin)
    requires forall i :: Has(gaps, i) ==> Contains(v, i)
    ensures Canonical(copies + gaps) && (forall c :: c in copies + gaps ==> c.end <= v.end || c in copies)
    ensures forall i :: Has(copies + gaps, i) <==> Has(copies, i) || Has(gaps, i)
  {
    forall g | 0 <= g < |gaps| ensures v.begin <= gaps[g].begin && gaps[g].end <= v.end {
      assert Contains(gaps[g], gaps[g].begin) && Contains(gaps[g], gaps[g].end - 1);
      assert Has(gaps, gaps[g].begin) && Has(gaps, gaps[g].end - 1);
    }
    var all := copies + gaps;
    forall j, k | 0 <= j < k < |all| ensures all[j].end < all[k].begin {
      if j < |copies| <= k { assert copies[j] in copies; }
    }
    forall i ensures Has(all, i) <==> Has(copies, i) || Has(gaps, i) {
      if Has(copies, i) {
        var j :| 0 <= j < |copies| && Contains(copies[j], i);
        assert Contains(all[j], i);
      }
      if Has(gaps, i) {
        var j :| 0 <= j < |gaps| && Contains(gaps[j], i);
        assert Contains(all[|copies| + j], i);
      }
    }
  }

  // ---- the copies and uploads ----

  /** Memory after the copies, in order, from a source that holds them. */
  function CopyAll(memory: seq<byte>, source: seq<byte>, copies: seq<Interval>): seq<byte>
    requires forall c :: c in copies ==> c.begin <= c.end <= |source|
  {
    if copies == [] then memory
    else
      var c := copies[|copies| - 1];
      assert forall d :: d in copies[..|copies| - 1] ==> d in copies;
      Write(CopyAll(memory, source, copies[..|copies| - 1]), c.begin, source[c.begin..c.end])
  }

  lemma HasLast(copies: seq<Interval>, i: int)
    requires copies != []
    ensures Has(copies, i) <==> Has(copies[..|copies| - 1], i) || Contains(copies[|copies| - 1], i)
  {
    PushedHas(copies[..|copies| - 1], copies[|copies| - 1]);
    assert copies == copies[..|copies| - 1] + [copies[|copies| - 1]];
  }

  lemma {:induction false} CopiedByte(memory: seq<byte>, source: seq<byte>, copies: seq<Interval>, i: nat)
    requires forall c :: c in copies ==> c.begin <= c.end <= |source|
    ensures Has(copies, i) ==> i < |source|
    ensures At(CopyAll(memory, source, copies), i) == if Has(copies, i) then source[i] else At(memory, i)
    ensures |memory| <= |CopyAll(memory, source, copies)| && (Has(copies, i) ==> i < |CopyAll(memory, source, copies)|)
  {
    if copies != [] {
      var before := copies[..|copies| - 1];
      assert copies[|copies| - 1] in copies && forall d :: d in before ==> d in copies;
      CopiedByte(memory, source, before, i);
      HasLast(copies, i);
    }
  }

  function UploadPieces(memory: seq<byte>, pieces: seq<Piece>): seq<byte> {
    if pieces == [] then memory
    else Write(UploadPieces(memory, pieces[..|pieces| - 1]), pieces[|pieces| - 1].offset, pieces[|pieces| - 1].data)
  }

  lemma {:induction false} UploadedPiece(memory: seq<byte>, pieces: seq<Piece>, writes: seq<Piece>, i: nat)
    requires forall p :: p in pieces ==> Agrees(p, writes, 0)
    ensures Held(pieces, i) ==> CoveredFrom(writes, 0, i) && i < |UploadPieces(memory, pieces)|
    ensures At(UploadPieces(memory, pieces), i) == if Held(pieces, i) then DeltaByte(writes, 0, i) else At(memory, i)
    ensures |memory| <= |UploadPieces(memory, pieces)|
  {
    if pieces != [] {
      var before, last := pieces[..|pieces| - 1], pieces[|pieces| - 1];
      assert forall p :: p in pieces <==> p in before || p == last;
      UploadedPiece(memory, before, writes, i);
      assert last in pieces && Agrees(last, writes, 0);
      assert Held(pieces, i) <==> Held(before, i) || PieceHas(last, i);
    }
  }

  /** The batch's writes to the backing: in order, apart from one another, inside [0, used). */
  ghost predicate Batch(copies: seq<Interval>, uploads: seq<Piece>, used: nat) {
    && Canonical(copies) && Apart(uploads)
    && (forall i :: Has(copies, i) || Held(uploads, i) ==> 0 <= i < used)
    && (forall i :: Has(copies, i) ==> !Held(uploads, i))
  }

  /** The byte the version should have at i, when the delta or the predecessor says. */
  predicate Determined(input: CopyInput, i: nat) {
    CoveredFrom(DeltaOf(input.emitted), 0, i) || i < CopyLimit(input)
  }

  function Expected(input: CopyInput, source: seq<byte>, i: nat): byte
    requires Determined(input, i) && CopyLimit(input) <= |source|
  {
    if CoveredFrom(DeltaOf(input.emitted), 0, i) then DeltaByte(DeltaOf(input.emitted), 0, i) else source[i]
  }

  // ---- the build ----

  /** What Acquire handed out; `writeAfter` is the frame the backing is still bound to, 0 for none. */
  datatype Leased = Leased(isNew: bool, writeAfter: nat)

  datatype CopyReason =
    | NoInput | NoPool | NoEmit | GpuWritten | InvalidCount | InvalidPredecessor | Exhausted | StillBound | NoBuffer | LeasedPredecessor
    | TooSmall | DeltaOutOfRange | NotCovered | Retired | CopyRefused | UploadRefused

  datatype CopyOutcome =
    | Ready(copies: seq<Interval>, uploads: seq<Piece>, copiedWhole: bool)
    | Suspended
    | Failed(reason: CopyReason)
    | Cancelled

  /** The version's bytes are counted in 64 bits, and the predecessor has a buffer and the same stride. */
  predicate CountsFit(input: CopyInput) {
    input.elementCount <= input.capacity && input.elementCount * input.elementStride <= MAX_COUNT
  }

  predicate PredecessorFits(input: CopyInput) {
    input.previous.Some? ==> input.previous.value.hasResource && input.previous.value.elementStride == input.elementStride
  }

  /** What is refused before a backing is asked for. */
  function Invalid(input: CopyInput): Option<CopyReason> {
    if !(input.hasService && input.elementStride != 0) then Some(NoInput)
    else if !input.hasPool then Some(NoPool)
    else if !input.hasEmit then Some(NoEmit)
    else if input.gpuWritten then Some(GpuWritten)
    else if !CountsFit(input) then Some(InvalidCount)
    else if !PredecessorFits(input) then Some(InvalidPredecessor)
    else None
  }

  lemma ProductFits(n: nat, stride: nat, max: nat)
    requires stride != 0
    ensures n <= max / stride <==> n * stride <= max
  {
    if n <= max / stride {
      assert n * stride <= max / stride * stride;
    } else {
      assert n * stride >= (max / stride + 1) * stride;
    }
  }

  method CheckInput(input: CopyInput) returns (reason: Option<CopyReason>)
    ensures reason == Invalid(input)
  {
    if !input.hasService || input.elementStride == 0 { return Some(NoInput); }
    if !input.hasPool { return Some(NoPool); }
    if !input.hasEmit { return Some(NoEmit); }
    if input.gpuWritten { return Some(GpuWritten); }
    ProductFits(input.elementCount, input.elementStride, MAX_COUNT);
    if input.elementCount > input.capacity || input.elementCount > MAX_COUNT / input.elementStride { return Some(InvalidCount); }
    var previous := input.previous;
    if previous.Some? && (!previous.value.hasResource || previous.value.elementStride != input.elementStride) {
      return Some(InvalidPredecessor);
    }
    reason := None;
  }

  /** What is refused of the leased backing. */
  function Unusable(input: CopyInput, hasBuffer: bool, byteCapacity: nat, isSource: bool, writeAfter: nat): Option<CopyReason> {
    if writeAfter != 0 then Some(StillBound)
    else if !hasBuffer then Some(NoBuffer)
    else if isSource then Some(LeasedPredecessor)
    else if byteCapacity < UsedBytes(input) then Some(TooSmall)
    else None
  }

  method CheckBacking(input: CopyInput, source: Backing?, backing: Backing, writeAfter: nat) returns (reason: Option<CopyReason>)
    ensures reason == Unusable(input, backing.hasBuffer, backing.byteCapacity, input.previous.Some? && source == backing, writeAfter)
  {
    if writeAfter != 0 { return Some(StillBound); }
    if !backing.hasBuffer { return Some(NoBuffer); }
    if input.previous.Some? && backing == source { return Some(LeasedPredecessor); }
    if UsedBytes(input) > backing.byteCapacity { return Some(TooSmall); }
    reason := None;
  }

  datatype Plan = Plan(copies: seq<Interval>, uploads: seq<Piece>, copiedWhole: bool) | Uncovered

  predicate LacksOf(input: CopyInput, isNew: bool, held: nat, capacityClass: nat, i: int) {
    input.previous.Some?
    && Lacks(isNew, held, capacityClass == input.previous.value.capacity, input.previous.value.writeSequence, input.changedSince, i)
  }

  /** The uploads hold the delta, and the copies what the backing lacks of the predecessor less the delta. */
  ghost predicate PlanFor(plan: Plan, input: CopyInput, isNew: bool, held: nat, capacityClass: nat) {
    var writes := DeltaOf(input.emitted);
    && plan.Plan? && Resolves(plan.uploads, writes, 0) && Canonical(plan.copies)
    && (forall a :: 0 <= a < |plan.uploads| - 1 ==>
          plan.uploads[a].offset + |plan.uploads[a].data| <= plan.uploads[a + 1].offset)
    && (forall i :: Has(plan.copies, i) <==>
          0 <= i < CopyLimit(input) && LacksOf(input, isNew, held, capacityClass, i) && !CoveredFrom(writes, 0, i))
  }

  ghost predicate CoversAll(input: CopyInput) {
    forall i :: 0 <= i < UsedBytes(input) ==> CoveredFrom(DeltaOf(input.emitted), 0, i)
  }

  /** Resolves the delta and works out the copies; without a predecessor the delta must be the whole version. */
  method MakePlan(input: CopyInput, isNew: bool, held: nat, capacityClass: nat) returns (plan: Plan)
    requires DeltaInRange(input.emitted, UsedBytes(input))
    ensures plan.Uncovered? <==> input.previous.None? && !CoversAll(input)
    ensures plan.Plan? ==> PlanFor(plan, input, isNew, held, capacityClass)
    ensures plan.Plan? && input.previous.Some? ==>
      var p := input.previous.value;
      plan.copiedWhole <==>
        CopiesWhole(isNew, held, capacityClass == p.capacity, p.writeSequence, input.changedSince) && CopyLimit(input) != 0
  {
    var writes := DeltaOf(input.emitted);
    var uploads, delta := Resolve(writes);
    SortedResolves(uploads, writes);
    uploads := DeltaResolution.Sort(uploads);
    if input.previous.Some? {
      var p := input.previous.value;
      var copyLimit := Min(p.elementCount * p.elementStride, UsedBytes(input));
      var missing, whole := Missing(isNew, held, capacityClass == p.capacity, p.writeSequence, input.changedSince, copyLimit);
      var copies := Copies(missing, delta);
      plan := Plan(copies, uploads, whole && copyLimit != 0);
    } else {
      forall i | Has(delta.intervals, i) ensures 0 <= i < UsedBytes(input) { DeltaStaysInRange(input.emitted, UsedBytes(input), i); }
      if UsedBytes(input) != 0 { CoversWhole(delta.intervals, UsedBytes(input)); }
      var covered := delta.intervals;
      if UsedBytes(input) != 0 && (|covered| != 1 || covered[0].begin != 0 || covered[0].end != UsedBytes(input)) { return Uncovered; }
      assert UsedBytes(input) != 0 ==> covered == [Interval(0, UsedBytes(input))];
      plan := Plan([], uploads, false);
    }
  }

  method RunCopies(backing: Backing, source: Backing, copies: seq<Interval>)
    requires source != backing && forall c :: c in copies ==> c.begin <= c.end <= |source.memory|
    modifies backing`memory
    ensures backing.memory == CopyAll(old(backing.memory), source.memory, copies)
  {
    for k := 0 to |copies|
      invariant backing.memory == CopyAll(old(backing.memory), source.memory, copies[..k])
    {
      var c := copies[k];
      assert c in copies && copies[..k + 1][..k] == copies[..k];
      backing.memory := Write(backing.memory, c.begin, source.memory[c.begin..c.end]);
    }
    assert copies[..|copies|] == copies;
  }

  method RunUploads(backing: Backing, uploads: seq<Piece>)
    modifies backing`memory
    ensures backing.memory == UploadPieces(old(backing.memory), uploads)
  {
    for k := 0 to |uploads|
      invariant backing.memory == UploadPieces(old(backing.memory), uploads[..k])
    {
      assert uploads[..k + 1][..k] == uploads[..k];
      backing.memory := Write(backing.memory, uploads[k].offset, uploads[k].data);
    }
    assert uploads[..|uploads|] == uploads;
  }

  function SourceOf(source: Backing?): seq<byte>
    reads source
  {
    if source != null then source.memory else []
  }

  /** The plan run on the backing: copies first, then uploads. */
  function Executed(memory: seq<byte>, source: seq<byte>, plan: Plan): seq<byte>
    requires plan.Plan? && forall c :: c in plan.copies ==> c.begin <= c.end <= |source|
  {
    UploadPieces(CopyAll(memory, source, plan.copies), plan.uploads)
  }

  lemma CopiesInSource(plan: Plan, limit: nat, source: seq<byte>)
    requires plan.Plan? && Canonical(plan.copies) && limit <= |source| && forall i :: Has(plan.copies, i) ==> 0 <= i < limit
    ensures forall c :: c in plan.copies ==> c.begin <= c.end <= |source|
  {
    forall c | c in plan.copies ensures c.begin <= c.end <= |source| {
      var k :| 0 <= k < |plan.copies| && plan.copies[k] == c;
      assert Contains(plan.copies[k], c.end - 1) && Has(plan.copies, c.end - 1);
    }
  }

  // ---- when a build is ready ----

  /** It asks for a backing. */
  predicate Asks(input: CopyInput, env: Environment) {
    Invalid(input) == None && !env.stops(0)
  }

  /** The backing it gets will do. */
  predicate Gets(input: CopyInput, usable: Option<Option<CopyReason>>, env: Environment) {
    Asks(input, env) && usable == Some(None)
  }

  /** And its delta is within the version, and is all of it if there is no predecessor. */
  ghost predicate Plans(input: CopyInput, usable: Option<Option<CopyReason>>, env: Environment) {
    && Gets(input, usable, env) && DeltaInRange(input.emitted, UsedBytes(input)) && !env.stops(1)
    && (input.previous.None? ==> CoversAll(input))
  }

  /** It gets as far as the batch. */
  ghost predicate Writes(input: CopyInput, usable: Option<Option<CopyReason>>, env: Environment) {
    Plans(input, usable, env) && !env.stops(2)
  }

  /** The backing lacks a byte of the predecessor that the delta does not give. */
  ghost predicate NeedsCopy(input: CopyInput, isNew: bool, held: nat, capacityClass: nat) {
    exists i :: 0 <= i < CopyLimit(input) && LacksOf(input, isNew, held, capacityClass, i) && !CoveredFrom(DeltaOf(input.emitted), 0, i)
  }

  predicate HasDelta(emitted: seq<Emitted>) {
    exists e :: e in emitted && e.piece.data != []
  }

  /** What the host refuses of the batch, if anything. */
  function RefusedOf(copies: bool, uploads: bool, env: Environment): Option<CopyReason> {
    if env.retired(0) then Some(Retired)
    else if copies && !env.accepts(0) then Some(CopyRefused)
    else if uploads && !env.accepts(1) then Some(UploadRefused)
    else None
  }

  /** Why it fails: what comes first. */
  ghost function Why(input: CopyInput, usable: Option<Option<CopyReason>>, refused: Option<CopyReason>, env: Environment): CopyReason {
    if Invalid(input).Some? then Invalid(input).value
    else if usable == None then Exhausted
    else if usable.value.Some? then usable.value.value
    else if !DeltaInRange(input.emitted, UsedBytes(input)) then DeltaOutOfRange
    else if refused.None? || !Writes(input, usable, env) then NotCovered
    else refused.value
  }

  /** The outcome, and which failure it is: `usable` is what is wrong with the leased backing, None with none leased; `refused` what the
      host refuses of the batch. */
  ghost predicate Answer(outcome: CopyOutcome, input: CopyInput, usable: Option<Option<CopyReason>>, canSuspend: bool,
    refused: Option<CopyReason>, env: Environment)
  {
    && (outcome.Ready? <==> Writes(input, usable, env) && refused == None)
    && (outcome.Suspended? <==> Asks(input, env) && usable == None && canSuspend)
    && (outcome.Cancelled? <==>
          || (Invalid(input) == None && env.stops(0))
          || (Gets(input, usable, env) && DeltaInRange(input.emitted, UsedBytes(input)) && env.stops(1))
          || (Plans(input, usable, env) && env.stops(2)))
    && (outcome.Failed? ==> outcome.reason == Why(input, usable, refused, env))
  }

  lemma {:induction false} HasDeltaIs(emitted: seq<Emitted>)
    ensures HasDelta(emitted) <==> DeltaOf(emitted) != []
    ensures forall w :: w in DeltaOf(emitted) ==> w.data != []
  {
    if emitted != [] {
      var before, e := emitted[..|emitted| - 1], emitted[|emitted| - 1];
      HasDeltaIs(before);
      assert forall d :: d in emitted <==> d in before || d == e;
    }
  }

  /** The batch copies or uploads exactly when there is something to copy, or to upload. */
  lemma BatchIsNeeded(plan: Plan, input: CopyInput, isNew: bool, held: nat, capacityClass: nat)
    requires PlanFor(plan, input, isNew, held, capacityClass)
    ensures plan.copies != [] <==> NeedsCopy(input, isNew, held, capacityClass)
    ensures plan.uploads != [] <==> HasDelta(input.emitted)
  {
    var writes := DeltaOf(input.emitted);
    HasDeltaIs(input.emitted);
    if plan.copies != [] {
      var c := plan.copies[0];
      assert c.begin < c.end && Contains(c, c.begin) && Has(plan.copies, c.begin);
    }
    if plan.uploads != [] {
      var p := plan.uploads[0];
      assert Agrees(p, writes, 0) && PieceHas(p, p.offset);
    }
    if writes != [] { assert writes[0] in writes && PieceHas(writes[0], writes[0].offset) && CoveredFrom(writes, 0, writes[0].offset); }
  }

  /** The batch: the copies, then the uploads; the backing holds nothing until both are queued. */
  method RunBatch(input: CopyInput, source: Backing?, backing: Backing, plan: Plan, env: Environment) returns (refused: Option<CopyReason>)
    requires plan.Plan? && (plan.copies != [] ==> source != null && source != backing)
    requires forall c :: c in plan.copies ==> c.begin <= c.end <= |SourceOf(source)|
    modifies backing
    ensures refused == RefusedOf(plan.copies != [], plan.uploads != [], env)
    ensures refused.None? ==> backing.memory == Executed(old(backing.memory), old(SourceOf(source)), plan)
    ensures refused.None? ==> backing.contentEpoch == input.writeSequence && backing.image == None
    ensures refused.Some? ==> Forgotten(backing)
    ensures refused == Some(UploadRefused) ==> backing.memory == CopyAll(old(backing.memory), old(SourceOf(source)), plan.copies)
    ensures refused.Some? && refused.value != UploadRefused ==> backing.memory == old(backing.memory)
  {
    backing.Forget();
    if env.retired(0) { return Some(Retired); }
    if plan.copies != [] {
      if !env.accepts(0) { return Some(CopyRefused); }
      RunCopies(backing, source, plan.copies);
    }
    if plan.uploads != [] {
      if !env.accepts(1) { return Some(UploadRefused); }
      RunUploads(backing, plan.uploads);
    }
    backing.contentEpoch := input.writeSequence;
    refused := None;
  }

  /** One version built into the leased backing from its predecessor and its delta. */
  method BuildFromPredecessor(input: CopyInput, source: Backing?, backing: Backing, leased: Option<Leased>, canSuspend: bool,
      env: Environment) returns (outcome: CopyOutcome, ghost plan: Plan)
    requires input.previous.Some? ==> source != null && CopyLimit(input) <= |source.memory|
    modifies backing
    ensures Answer(outcome, input, UsableOf(input, source, backing, leased), canSuspend,
      old(RefusedHere(input, backing, leased, env)), env)
    ensures outcome.Ready? ==>
      && leased.Some? && PlanFor(plan, input, leased.value.isNew, old(backing.contentEpoch), backing.capacityClass)
      && outcome == Ready(plan.copies, plan.uploads, plan.copiedWhole)
      && (forall c :: c in plan.copies ==> c.begin <= c.end <= |old(SourceOf(source))|)
      && backing.memory == Executed(old(backing.memory), old(SourceOf(source)), plan)
      && backing.contentEpoch == input.writeSequence && backing.image == None
    ensures !Writes(input, UsableOf(input, source, backing, leased), env) ==> unchanged(backing)
    ensures !outcome.Ready? ==> unchanged(backing) || Forgotten(backing)
  {
    plan := Uncovered;
    var reason := CheckInput(input);
    if reason.Some? { return Failed(reason.value), plan; }
    if env.stops(0) { return Cancelled, plan; }
    if leased.None? {
      if !canSuspend { return Failed(Exhausted), plan; }
      return Suspended, plan;
    }
    reason := CheckBacking(input, source, backing, leased.value.writeAfter);
    if reason.Some? { return Failed(reason.value), plan; }
    var writes, inRange := CollectDelta(input.emitted, UsedBytes(input));
    if !inRange { return Failed(DeltaOutOfRange), plan; }
    if env.stops(1) { return Cancelled, plan; }
    var made := MakePlan(input, leased.value.isNew, backing.contentEpoch, backing.capacityClass);
    plan := made;
    if made.Uncovered? { return Failed(NotCovered), plan; }
    if env.stops(2) { return Cancelled, plan; }
    CopiesInSource(made, CopyLimit(input), SourceOf(source));
    BatchIsNeeded(made, input, leased.value.isNew, backing.contentEpoch, backing.capacityClass);
    reason := RunBatch(input, source, backing, made, env);
    if reason.Some? { return Failed(reason.value), plan; }
    outcome := Ready(made.copies, made.uploads, made.copiedWhole);
  }

  function UsableOf(input: CopyInput, source: Backing?, backing: Backing, leased: Option<Leased>): Option<Option<CopyReason>> {
    if leased.None? then None
    else Some(Unusable(input, backing.hasBuffer, backing.byteCapacity, input.previous.Some? && source == backing, leased.value.writeAfter))
  }

  ghost function RefusedHere(input: CopyInput, backing: Backing, leased: Option<Leased>, env: Environment): Option<CopyReason>
    reads backing
  {
    RefusedOf(leased.Some? && NeedsCopy(input, leased.value.isNew, backing.contentEpoch, backing.capacityClass),
      HasDelta(input.emitted), env)
  }

  // ---- what the version holds ----

  /** The backing's own bytes are the predecessor's wherever the build neither copies nor uploads. */
  predicate Trusted(input: CopyInput, isNew: bool, held: nat, capacityClass: nat, memory: seq<byte>, source: seq<byte>)
    requires CopyLimit(input) <= |source|
  {
    forall i :: 0 <= i < CopyLimit(input) && !LacksOf(input, isNew, held, capacityClass, i) && !CoveredFrom(DeltaOf(input.emitted), 0, i) ==>
      At(memory, i) == source[i]
  }

  /** Each byte after the plan, whatever the backing held before. */
  lemma ExecutedByte(input: CopyInput, isNew: bool, held: nat, capacityClass: nat, memory: seq<byte>, source: seq<byte>, plan: Plan, i: nat)
    requires PlanFor(plan, input, isNew, held, capacityClass) && forall c :: c in plan.copies ==> c.begin <= c.end <= |source|
    ensures Has(plan.copies, i) ==> i < |source|
    ensures var after := Executed(memory, source, plan);
      && At(after, i) == (if CoveredFrom(DeltaOf(input.emitted), 0, i) then DeltaByte(DeltaOf(input.emitted), 0, i)
                         else if Has(plan.copies, i) then source[i] else At(memory, i))
      && |memory| <= |after| && (CoveredFrom(DeltaOf(input.emitted), 0, i) || Has(plan.copies, i) ==> i < |after|)
  {
    CopiedByte(memory, source, plan.copies, i);
    UploadedPiece(CopyAll(memory, source, plan.copies), plan.uploads, DeltaOf(input.emitted), i);
  }

  /** The version is right - each determined byte is the last delta write's, else the predecessor's - exactly when every byte the
      build neither copied nor uploaded already was the predecessor's. */
  lemma VersionIsRight(input: CopyInput, isNew: bool, held: nat, capacityClass: nat, memory: seq<byte>, source: seq<byte>, plan: Plan)
    requires CopyLimit(input) <= |source|
    requires PlanFor(plan, input, isNew, held, capacityClass) && forall c :: c in plan.copies ==> c.begin <= c.end <= |source|
    ensures Trusted(input, isNew, held, capacityClass, memory, source) <==>
      forall i: nat :: Determined(input, i) ==> At(Executed(memory, source, plan), i) == Expected(input, source, i)
  {
    var after := Executed(memory, source, plan);
    forall i: nat
      ensures At(after, i) == (if CoveredFrom(DeltaOf(input.emitted), 0, i) then DeltaByte(DeltaOf(input.emitted), 0, i)
                               else if Has(plan.copies, i) then source[i] else At(memory, i))
    {
      ExecutedByte(input, isNew, held, capacityClass, memory, source, plan, i);
    }
    if forall i: nat :: Determined(input, i) ==> At(after, i) == Expected(input, source, i) {
      forall i | 0 <= i < CopyLimit(input) && !LacksOf(input, isNew, held, capacityClass, i) && !CoveredFrom(DeltaOf(input.emitted), 0, i)
        ensures At(memory, i) == source[i]
      {
        assert Determined(input, i);
      }
    }
  }

  /** A batch has no barriers: its copies and uploads never touch one byte, and stay inside the version. */
  lemma BatchIsApart(input: CopyInput, isNew: bool, held: nat, capacityClass: nat, plan: Plan)
    requires PlanFor(plan, input, isNew, held, capacityClass) && DeltaInRange(input.emitted, UsedBytes(input))
    ensures Batch(plan.copies, plan.uploads, UsedBytes(input))
  {
    forall i | Held(plan.uploads, i) ensures 0 <= i < UsedBytes(input) && CoveredFrom(DeltaOf(input.emitted), 0, i) {
      var p :| p in plan.uploads && PieceHas(p, i);
      assert Agrees(p, DeltaOf(input.emitted), 0);
      DeltaStaysInRange(input.emitted, UsedBytes(input), i);
    }
  }
}
