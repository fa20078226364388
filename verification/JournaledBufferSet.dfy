/** Buffers published together by journal catch-up (src/JournaledBufferSet.cpp). A part's emit is a script of sink calls and a result;
    it may depend on what the backing held. What the pools hand out and the host's answers are given. */
module JournaledBufferSet {
  import opened Bytes
  import opened BackingMemory
  import opened GrowthPolicy

  const NO_BYTE: nat := 0xffff_ffff_ffff_ffff

  datatype SinkError = PastBacking | BelowMark | NoBuffer | Retired | Refused

  datatype Run = Run(data: seq<byte>, offset: nat)

  /** One write of a run, or a batch of runs, with the host's answers to it. */
  datatype SinkCall =
    | One(run: Run, retired: bool, accepted: bool)
    | Many(runs: seq<Run>, retired: bool, accepted: bool)

  /** What an emit does with its sink; no result when it throws of its own. */
  datatype Script = Script(calls: seq<SinkCall>, result: Option<nat>)

  function RunsOf(call: SinkCall): seq<Run> {
    match call
    case One(run, _, _) => [run]
    case Many(runs, _, _) => runs
  }

  /** Memory after the runs, in order; empty runs write nothing. */
  function Written(memory: seq<byte>, runs: seq<Run>): seq<byte>
    requires forall r :: r in runs && r.data != [] ==> r.offset + |r.data| <= |memory|
    ensures |Written(memory, runs)| == |memory|
  {
    if runs == [] then memory
    else
      var r, before := runs[|runs| - 1], Written(memory, runs[..|runs| - 1]);
      if r.data == [] then before else Overwrite(before, r.offset, r.data)
  }

  predicate RunsFit(runs: seq<Run>, floor: nat, capacity: nat) {
    forall r :: r in runs && r.data != [] ==> floor <= r.offset && r.offset + |r.data| <= capacity
  }

  predicate Fits(run: Run, floor: nat, capacity: nat) {
    run.data == [] || (floor <= run.offset && run.offset + |run.data| <= capacity)
  }

  /** Run k is the first that does not fit. */
  predicate FirstUnfit(runs: seq<Run>, floor: nat, capacity: nat, k: int) {
    && 0 <= k < |runs| && !Fits(runs[k], floor, capacity)
    && forall j :: 0 <= j < k ==> Fits(runs[j], floor, capacity)
  }

  /** A batch goes through: there is nothing to write, or every run fits, the buffer is there and not retired, and the host accepts. */
  predicate Goes(runs: seq<Run>, target: Backing, floor: nat, retired: bool, accepted: bool) {
    || (forall r :: r in runs ==> r.data == [])
    || (RunsFit(runs, floor, target.byteCapacity) && target.hasBuffer && !retired && accepted)
  }

  /** Why it does not. */
  ghost predicate Because(error: SinkError, runs: seq<Run>, target: Backing, floor: nat, retired: bool) {
    var fit := RunsFit(runs, floor, target.byteCapacity);
    match error
    case PastBacking => exists k :: FirstUnfit(runs, floor, target.byteCapacity, k) && runs[k].offset + |runs[k].data| > target.byteCapacity
    case BelowMark => exists k :: FirstUnfit(runs, floor, target.byteCapacity, k) && runs[k].offset + |runs[k].data| <= target.byteCapacity
    case NoBuffer => fit && !target.hasBuffer
    case Retired => fit && target.hasBuffer && retired
    case Refused => fit && target.hasBuffer && !retired
  }

  predicate CallGoes(call: SinkCall, target: Backing, floor: nat) {
    Goes(RunsOf(call), target, floor, call.retired, call.accepted)
  }

  /** An emit goes through: it gives an epoch, and each of its calls goes through. */
  predicate EmitGoes(script: Script, target: Backing, floor: nat) {
    script.result.Some? && forall k :: 0 <= k < |script.calls| ==> CallGoes(script.calls[k], target, floor)
  }

  /** No run moves a byte below the floor. */
  lemma {:induction false} WrittenAbove(memory: seq<byte>, runs: seq<Run>, floor: nat)
    requires RunsFit(runs, floor, |memory|) && floor <= |memory|
    ensures Written(memory, runs)[..floor] == memory[..floor]
  {
    if runs != [] {
      var before := runs[..|runs| - 1];
      assert forall r :: r in before ==> r in runs;
      WrittenAbove(memory, before, floor);
      assert runs[|runs| - 1] in runs;
    }
  }

  lemma {:induction false} WrittenAppend(memory: seq<byte>, a: seq<Run>, b: seq<Run>)
    requires forall r :: r in a + b && r.data != [] ==> r.offset + |r.data| <= |memory|
    ensures (forall r :: r in a ==> r in a + b) && (forall r :: r in b ==> r in a + b)
    ensures Written(memory, a + b) == Written(Written(memory, a), b)
  {
    assert (forall r :: r in a ==> r in a + b) && (forall r :: r in b ==> r in a + b);
    if b == [] {
      assert a + b == a;
    } else {
      var before := b[..|b| - 1];
      assert (a + b)[..|a + b| - 1] == a + before;
      assert forall r :: r in a + before ==> r in a + b;
      WrittenAppend(memory, a, before);
    }
  }

  function TotalBytes(runs: seq<Run>): nat {
    if runs == [] then 0 else TotalBytes(runs[..|runs| - 1]) + |runs[|runs| - 1].data|
  }

  function Count(runs: seq<Run>): nat {
    if runs == [] then 0 else Count(runs[..|runs| - 1]) + if runs[|runs| - 1].data == [] then 0 else 1
  }

  function FirstByte(first: nat, runs: seq<Run>): nat {
    if runs == [] then first
    else
      var r, before := runs[|runs| - 1], FirstByte(first, runs[..|runs| - 1]);
      if r.data == [] then before else Min(before, r.offset)
  }

  class JournaledSink {
    const target: Backing
    const floor: nat
    var bytes: nat
    var runs: nat
    var firstByte: nat

    constructor (target: Backing, floor: nat)
      ensures this.target == target && this.floor == floor && bytes == 0 && runs == 0 && firstByte == NO_BYTE
    {
      this.target, this.floor, bytes, runs, firstByte := target, floor, 0, 0, NO_BYTE;
    }

    function CheckRange(offset: nat, size: nat): Option<SinkError> {
      if offset > target.byteCapacity || size > target.byteCapacity - offset then Some(PastBacking)
      else if offset < floor then Some(BelowMark)
      else None
    }

    /** One run, or an exception and nothing written. */
    method Write(run: Run, retired: bool, accepted: bool) returns (error: Option<SinkError>)
      requires |target.memory| == target.byteCapacity
      modifies this, target`memory
      ensures error.None? <==> Goes([run], target, floor, retired, accepted)
      ensures error.Some? ==> Because(error.value, [run], target, floor, retired)
      ensures error.None? ==> RunsFit([run], floor, target.byteCapacity) && target.memory == Written(old(target.memory), [run])
      ensures error.None? ==> bytes == old(bytes) + |run.data| && runs == old(runs) + Count([run])
      ensures error.None? ==> firstByte == FirstByte(old(firstByte), [run])
      ensures error.Some? ==> target.memory == old(target.memory)
    {
      assert [run][..0] == [] && [run][0] == run;
      if run.data == [] { return None; }
      assert Fits(run, floor, target.byteCapacity) || FirstUnfit([run], floor, target.byteCapacity, 0);
      error := CheckRange(run.offset, |run.data|);
      if error.Some? { return; }
      if !target.hasBuffer { return Some(NoBuffer); }
      if retired { return Some(Retired); }
      if !accepted { return Some(Refused); }
      target.memory := Overwrite(target.memory, run.offset, run.data);
      bytes, runs, firstByte := bytes + |run.data|, runs + 1, Min(firstByte, run.offset);
      error := None;
    }

    /** Many runs in one upload: all of them, or an exception and none. */
    method WriteMany(ranges: seq<Run>, retired: bool, accepted: bool) returns (error: Option<SinkError>)
      requires |target.memory| == target.byteCapacity
      modifies this, target`memory
      ensures error.None? <==> Goes(ranges, target, floor, retired, accepted)
      ensures error.Some? ==> Because(error.value, ranges, target, floor, retired)
      ensures error.None? ==> RunsFit(ranges, floor, target.byteCapacity) && target.memory == Written(old(target.memory), ranges)
      ensures error.None? ==> bytes == old(bytes) + TotalBytes(ranges) && runs == old(runs) + Count(ranges)
      ensures error.None? ==> firstByte == FirstByte(old(firstByte), ranges)
      ensures error.Some? ==> target.memory == old(target.memory)
    {
      var totalBytes, count, first := 0, 0, firstByte;
      for k := 0 to |ranges|
        invariant totalBytes == TotalBytes(ranges[..k]) && count == Count(ranges[..k]) && first == FirstByte(firstByte, ranges[..k])
        invariant forall j :: 0 <= j < k ==> Fits(ranges[j], floor, target.byteCapacity)
        invariant totalBytes == 0 <==> forall j :: 0 <= j < k ==> ranges[j].data == []
      {
        assert ranges[..k + 1][..k] == ranges[..k];
        if ranges[k].data == [] { continue; }
        error := CheckRange(ranges[k].offset, |ranges[k].data|);
        if error.Some? {
          assert FirstUnfit(ranges, floor, target.byteCapacity, k) && ranges[k] in ranges;
          return;
        }
        totalBytes, count, first := totalBytes + |ranges[k].data|, count + 1, Min(first, ranges[k].offset);
      }
      assert ranges[..|ranges|] == ranges;
      if totalBytes == 0 {
        NothingWritten(target.memory, ranges, firstByte);
        return None;
      }
      if !target.hasBuffer { return Some(NoBuffer); }
      if retired { return Some(Retired); }
      if !accepted { return Some(Refused); }
      Upload(ranges);
      bytes, runs, firstByte := bytes + totalBytes, runs + count, first;
      error := None;
    }

    method Upload(ranges: seq<Run>)
      requires RunsFit(ranges, floor, target.byteCapacity) && |target.memory| == target.byteCapacity
      modifies target`memory
      ensures target.memory == Written(old(target.memory), ranges)
    {
      for k := 0 to |ranges|
        invariant target.memory == Written(old(target.memory), ranges[..k])
      {
        assert ranges[..k + 1][..k] == ranges[..k];
        if ranges[k].data != [] { target.memory := Overwrite(target.memory, ranges[k].offset, ranges[k].data); }
      }
      assert ranges[..|ranges|] == ranges;
    }
  }

  lemma {:induction false} NothingWritten(memory: seq<byte>, runs: seq<Run>, first: nat)
    requires TotalBytes(runs) == 0 && forall r :: r in runs && r.data != [] ==> r.offset + |r.data| <= |memory|
    ensures Written(memory, runs) == memory && Count(runs) == 0 && FirstByte(first, runs) == first
  {
    if runs != [] { NothingWritten(memory, runs[..|runs| - 1], first); }
  }

  // ---- one part ----

  function AllRuns(calls: seq<SinkCall>): seq<Run> {
    if calls == [] then [] else AllRuns(calls[..|calls| - 1]) + RunsOf(calls[|calls| - 1])
  }

  /** What the emit is told of the backing it writes into. */
  datatype Target = Target(contentEpoch: nat, capacityUnits: nat, isNew: bool)

  datatype Emit = Absent | Emits(script: Target -> Script)

  datatype Request = Request(units: nat, emit: Emit, appendInto: Backing?)

  datatype PartState = PartState(stride: nat, flags: nat, policy: GrowthPolicy, highWater: nat)

  /** A lease the pool gives, or none when it is exhausted. */
  datatype Acquired = Exhausted | Acquired(backing: Backing, isNew: bool)

  datatype Version = Version(
    lease: Backing?,
    units: nat,
    capacityUnits: nat,
    caughtUpFrom: nat,
    contentEpoch: nat,
    appended: bool,
    sealedFrom: nat,
    runs: seq<Run>)

  const NO_VERSION: Version := Version(null, 0, 0, 0, 0, false, 0, [])

  datatype Thrown = NoEmit | ForeignBacking | PastLimit | PoolExhausted | EmitFailed

  function UnitBytes(part: PartState, units: nat): nat {
    if part.stride != 0 then units * part.stride else units
  }

  predicate Appends(request: Request) {
    request.appendInto != null && request.units <= request.appendInto.capacityClass
  }

  lemma Strides(m: nat, n: nat, stride: nat)
    requires stride != 0
    ensures m <= n <==> m * stride <= n * stride
  {
    if m > n { assert m * stride >= (n + 1) * stride; } else { assert m * stride <= n * stride; }
  }

  /** A part appends exactly when the head it is given has room for all it asks: each unit a stride, or a byte of a raw part. */
  lemma AppendsWhereItFits(part: PartState, request: Request)
    requires request.appendInto != null && request.appendInto.byteCapacity == UnitBytes(part, request.appendInto.capacityClass)
    ensures Appends(request) <==> UnitBytes(part, request.units) <= request.appendInto.byteCapacity
    ensures UnitBytes(part, request.units + 1) - UnitBytes(part, request.units) == Max(part.stride, 1)
  {
    if part.stride != 0 { Strides(request.units, request.appendInto.capacityClass, part.stride); }
  }

  /** The backing a part writes, when it gets so far. */
  function Taken(request: Request, acquired: Acquired): Backing? {
    if request.emit.Absent? then null
    else if Appends(request) then request.appendInto
    else if acquired.Acquired? then acquired.backing
    else null
  }

  function TakenIn(request: Request, acquired: Acquired): set<Backing> {
    if Taken(request, acquired) != null then {Taken(request, acquired)} else {}
  }

  /** An append goes into the part's own head. */
  predicate Owns(part: PartState, request: Request) {
    request.appendInto != null ==> request.appendInto.stride == part.stride && request.appendInto.flags == part.flags
  }

  /** The class a part is made at: the head's for an append, else what the policy grows the part's to. */
  function ClassOf(part: PartState, request: Request): Capacity {
    if Appends(request) then Made(request.appendInto.capacityClass)
    else NextCapacity(part.policy, part.highWater, request.units)
  }

  /** A part's class once one was made: an append makes none. */
  function Raised(part: PartState, request: Request): nat {
    if Appends(request) || ClassOf(part, request).PastLimit? then part.highWater
    else Max(part.highWater, ClassOf(part, request).value)
  }

  function Sized(part: PartState, request: Request): nat {
    if request.emit.Absent? then part.highWater else Raised(part, request)
  }

  /** What the emit is told: nothing to catch up from in a new backing, else what its epoch says. */
  function TargetOf(part: PartState, request: Request, acquired: Acquired, held: nat): Target
    requires ClassOf(part, request).Made?
  {
    var isNew := !Appends(request) && acquired.Acquired? && acquired.isNew;
    Target(if isNew then 0 else held, ClassOf(part, request).value, isNew)
  }

  function SealedFrom(request: Request, sealed: nat): nat {
    if Appends(request) then sealed else 0
  }

  /** The first `n` calls of an emit landed whole, and nothing else. */
  predicate LandedUpTo(former: seq<byte>, memory: seq<byte>, floor: nat, calls: seq<SinkCall>, n: nat) {
    && n <= |calls| && RunsFit(AllRuns(calls[..n]), floor, |former|)
    && memory == Written(former, AllRuns(calls[..n]))
  }

  /** The emit landed its calls up to the first that does not go through, or all of them. */
  ghost predicate LandedToTheFirst(former: seq<byte>, memory: seq<byte>, target: Backing, floor: nat, calls: seq<SinkCall>) {
    exists n: nat :: LandedUpTo(former, memory, floor, calls, n)
      && (forall k :: 0 <= k < n ==> CallGoes(calls[k], target, floor)) && (n < |calls| ==> !CallGoes(calls[n], target, floor))
  }

  ghost predicate SomeLanded(former: seq<byte>, memory: seq<byte>, floor: nat, calls: seq<SinkCall>) {
    exists n :: LandedUpTo(former, memory, floor, calls, n)
  }

  /** One call of the emit: its runs land, or it throws and nothing does. */
  method RunCall(sink: JournaledSink, call: SinkCall) returns (error: Option<SinkError>)
    requires |sink.target.memory| == sink.target.byteCapacity
    modifies sink, sink.target`memory
    ensures error.None? <==> CallGoes(call, sink.target, sink.floor)
    ensures error.None? ==>
      RunsFit(RunsOf(call), sink.floor, sink.target.byteCapacity) && sink.target.memory == Written(old(sink.target.memory), RunsOf(call))
    ensures error.Some? ==> sink.target.memory == old(sink.target.memory)
  {
    if call.One? {
      error := sink.Write(call.run, call.retired, call.accepted);
    } else {
      error := sink.WriteMany(call.runs, call.retired, call.accepted);
    }
  }

  /** One call more has landed. */
  lemma LandsNext(former: seq<byte>, memory: seq<byte>, memory': seq<byte>, floor: nat, calls: seq<SinkCall>, n: nat)
    requires n < |calls| && LandedUpTo(former, memory, floor, calls, n) && RunsFit(RunsOf(calls[n]), floor, |former|)
    requires memory' == Written(memory, RunsOf(calls[n]))
    ensures LandedUpTo(former, memory', floor, calls, n + 1)
  {
    var before, runs := AllRuns(calls[..n]), RunsOf(calls[n]);
    assert calls[..n + 1][..n] == calls[..n];
    forall r: Run | r in before + runs && r.data != [] ensures floor <= r.offset && r.offset + |r.data| <= |former| {}
    WrittenAppend(former, before, runs);
  }

  /** The next call, with the ones before it landed. */
  method RunNext(sink: JournaledSink, calls: seq<SinkCall>, n: nat, ghost memory: seq<byte>) returns (went: bool)
    requires |sink.target.memory| == sink.target.byteCapacity && |memory| == sink.target.byteCapacity
    requires n < |calls| && LandedUpTo(memory, sink.target.memory, sink.floor, calls, n)
    modifies sink, sink.target`memory
    ensures went <==> CallGoes(calls[n], sink.target, sink.floor)
    ensures |sink.target.memory| == sink.target.byteCapacity
    ensures LandedUpTo(memory, sink.target.memory, sink.floor, calls, if went then n + 1 else n)
  {
    ghost var before := sink.target.memory;
    var error := RunCall(sink, calls[n]);
    if error.None? { LandsNext(memory, before, sink.target.memory, sink.floor, calls, n); }
    went := error.None?;
  }

  /** The first n calls go through. */
  predicate GoUpTo(calls: seq<SinkCall>, target: Backing, floor: nat, n: nat)
    requires n <= |calls|
  {
    n == 0 || (GoUpTo(calls, target, floor, n - 1) && CallGoes(calls[n - 1], target, floor))
  }

  lemma {:induction false} GoEach(calls: seq<SinkCall>, target: Backing, floor: nat, n: nat)
    requires n <= |calls|
    ensures GoUpTo(calls, target, floor, n) <==> forall k :: 0 <= k < n ==> CallGoes(calls[k], target, floor)
  {
    if n > 0 { GoEach(calls, target, floor, n - 1); }
  }

  /** The emit's calls, up to the first that does not go through. */
  method RunCalls(sink: JournaledSink, calls: seq<SinkCall>) returns (n: nat)
    requires |sink.target.memory| == sink.target.byteCapacity
    modifies sink, sink.target`memory
    ensures n <= |calls| && GoUpTo(calls, sink.target, sink.floor, n)
    ensures n < |calls| ==> !CallGoes(calls[n], sink.target, sink.floor)
    ensures LandedUpTo(old(sink.target.memory), sink.target.memory, sink.floor, calls, n)
  {
    ghost var memory := sink.target.memory;
    n := 0;
    while n < |calls|
      invariant n <= |calls| && GoUpTo(calls, sink.target, sink.floor, n)
      invariant |sink.target.memory| == sink.target.byteCapacity
      invariant LandedUpTo(memory, sink.target.memory, sink.floor, calls, n)
    {
      var went := RunNext(sink, calls, n, memory);
      if !went { return; }
      n := n + 1;
    }
  }

  /** Runs the emit: all its runs land, or it throws with the calls before the failing one landed; none is below the floor. */
  method RunEmit(sink: JournaledSink, script: Script) returns (epoch: Option<nat>)
    requires |sink.target.memory| == sink.target.byteCapacity && sink.floor <= sink.target.byteCapacity
    modifies sink, sink.target`memory
    ensures |sink.target.memory| == sink.target.byteCapacity
    ensures sink.target.memory[..sink.floor] == old(sink.target.memory[..sink.floor])
    ensures epoch.Some? <==> EmitGoes(script, sink.target, sink.floor)
    ensures epoch.Some? ==>
      && epoch == script.result && RunsFit(AllRuns(script.calls), sink.floor, sink.target.byteCapacity)
      && sink.target.memory == Written(old(sink.target.memory), AllRuns(script.calls))
    ensures LandedToTheFirst(old(sink.target.memory), sink.target.memory, sink.target, sink.floor, script.calls)
    ensures epoch.None? ==> SomeLanded(old(sink.target.memory), sink.target.memory, sink.floor, script.calls)
  {
    var memory := sink.target.memory;
    var n := RunCalls(sink, script.calls);
    GoEach(script.calls, sink.target, sink.floor, n);
    WrittenAbove(memory, AllRuns(script.calls[..n]), sink.floor);
    if n < |script.calls| { return None; }
    assert script.calls[..n] == script.calls;
    epoch := script.result;
  }

  /** What a backing must be for a part's request: of the part, with all its memory, and large enough. */
  predicate Fitting(part: PartState, request: Request, acquired: Acquired)
    reads TakenIn(request, acquired)
  {
    var backing := Taken(request, acquired);
    backing != null ==> |backing.memory| == backing.byteCapacity && backing.sealedBytes <= backing.byteCapacity
  }

  /** What the part's backing holds; nothing when it has none. */
  datatype Held = Held(memory: seq<byte>, sealed: nat, epoch: nat)

  function Now(request: Request, acquired: Acquired): Held
    reads TakenIn(request, acquired)`memory, TakenIn(request, acquired)`sealedBytes, TakenIn(request, acquired)`contentEpoch
  {
    var backing := Taken(request, acquired);
    if backing == null then Held([], 0, 0) else Held(backing.memory, backing.sealedBytes, backing.contentEpoch)
  }

  /** How a part's publication ends, from what its backing held. */
  function EndOf(part: PartState, request: Request, acquired: Acquired, was: Held): Option<Thrown> {
    if request.emit.Absent? then if request.units == 0 then None else Some(NoEmit)
    else if !Owns(part, request) then Some(ForeignBacking)
    else if ClassOf(part, request).PastLimit? then Some(Thrown.PastLimit)
    else if Taken(request, acquired) == null then Some(PoolExhausted)
    else if !EmitGoes(request.emit.script(TargetOf(part, request, acquired, was.epoch)), Taken(request, acquired), SealedFrom(request, was.sealed))
    then Some(EmitFailed)
    else None
  }

  /** A part's publication: the version says what was written where, and the mark covers it and all that was sealed before. */
  method PublishPart(part: PartState, request: Request, acquired: Acquired)
      returns (version: Version, highWater: nat, thrown: Option<Thrown>)
    requires Fitting(part, request, acquired)
    modifies TakenIn(request, acquired)`memory, TakenIn(request, acquired)`sealedBytes, TakenIn(request, acquired)`contentEpoch
    ensures thrown.None? && request.emit.Absent? ==> version == NO_VERSION && highWater == part.highWater && request.units == 0
    ensures thrown.None? && request.emit.Emits? ==>
      && version.lease == Taken(request, acquired) && version.lease != null
      && version.units == request.units && version.appended == Appends(request)
      && version.sealedFrom == SealedFrom(request, old(version.lease.sealedBytes))
      && highWater == Raised(part, request) && ClassOf(part, request) == Made(version.capacityUnits)
      && version.caughtUpFrom == TargetOf(part, request, acquired, old(version.lease.contentEpoch)).contentEpoch
      && version.contentEpoch == version.lease.contentEpoch
      && version.lease.sealedBytes == Max(version.sealedFrom, UnitBytes(part, request.units))
      && RunsFit(version.runs, version.sealedFrom, |version.lease.memory|)
      && |version.lease.memory| == version.lease.byteCapacity
      && version.lease.memory == Written(old(version.lease.memory), version.runs)
      && version.lease.memory[..version.sealedFrom] == old(version.lease.memory)[..version.sealedFrom]
      && var script := request.emit.script(TargetOf(part, request, acquired, old(version.lease.contentEpoch)));
         version.runs == AllRuns(script.calls) && script.result == Some(version.contentEpoch)
    ensures thrown.Some? ==> version.lease == null || (version.lease == Taken(request, acquired) && version.lease.contentEpoch == 0)
    ensures thrown.Some? && version.lease == null && Taken(request, acquired) != null ==> unchanged(Taken(request, acquired))
    ensures thrown.Some? && version.lease != null ==>
      && |version.lease.memory| == version.lease.byteCapacity
      && SealedFrom(request, old(version.lease.sealedBytes)) <= |old(version.lease.memory)|
      && version.lease.memory[..SealedFrom(request, old(version.lease.sealedBytes))]
         == old(version.lease.memory)[..SealedFrom(request, old(version.lease.sealedBytes))]
      && version.lease.sealedBytes == SealedFrom(request, old(version.lease.sealedBytes))
      && highWater == Raised(part, request) && ClassOf(part, request).Made?
      && var script := request.emit.script(TargetOf(part, request, acquired, old(version.lease.contentEpoch)));
         SomeLanded(old(version.lease.memory), version.lease.memory, SealedFrom(request, old(version.lease.sealedBytes)), script.calls)
    ensures thrown.Some? && version.lease == null ==> highWater == part.highWater || (thrown.value.PoolExhausted? && highWater == Raised(part, request))
    ensures version.lease != null ==> Owns(part, request)
    ensures thrown == EndOf(part, request, acquired, old(Now(request, acquired)))
    ensures part.highWater <= highWater
  {
    version, highWater, thrown := NO_VERSION, part.highWater, None;
    if request.units == 0 && request.emit.Absent? { return; }
    if request.emit.Absent? {
      thrown := Some(NoEmit);
      return;
    }
    if request.appendInto != null && (request.appendInto.stride != part.stride || request.appendInto.flags != part.flags) {
      thrown := Some(ForeignBacking);
      return;
    }
    var append := Appends(request);
    var capacityClass: nat;
    var lease: Backing;
    if append {
      lease, capacityClass := request.appendInto, request.appendInto.capacityClass;
    } else {
      var made := NextCapacity(part.policy, part.highWater, request.units);
      if made.PastLimit? {
        thrown := Some(Thrown.PastLimit);
        return;
      }
      capacityClass := made.value;
      highWater := Max(part.highWater, capacityClass);
      if acquired.Exhausted? {
        thrown := Some(PoolExhausted);
        return;
      }
      lease := acquired.backing;
      lease.sealedBytes := 0;
    }
    var sealedFrom := if append then lease.sealedBytes else 0;
    var isNew := !append && acquired.isNew;
    var target := Target(if isNew then 0 else lease.contentEpoch, capacityClass, isNew);
    version := NO_VERSION.(lease := lease);
    lease.contentEpoch := 0;
    var sink := new JournaledSink(lease, sealedFrom);
    var script := request.emit.script(target);
    var epoch := RunEmit(sink, script);
    if epoch.None? {
      thrown := Some(EmitFailed);
      return;
    }
    lease.contentEpoch := epoch.value;
    lease.sealedBytes := Max(sealedFrom, UnitBytes(part, request.units));
    version := Version(lease, request.units, capacityClass, target.contentEpoch, epoch.value, append, sealedFrom, AllRuns(script.calls));
  }

  /** No byte below the part's floor moved: its backing's mark for an append, none for a lease. */
  predicate BelowKept(request: Request, was: Held, now: Held) {
    var floor := SealedFrom(request, was.sealed);
    floor <= |was.memory| == |now.memory| && now.memory[..floor] == was.memory[..floor]
  }

  /** The part's backing is as its emit wrote it, and the mark covers what the version names and what was named before. */
  predicate PartWritten(part: PartState, request: Request, acquired: Acquired, version: Version, was: Held, now: Held) {
    if request.emit.Absent? then version == NO_VERSION && now == was
    else
      && version.lease != null && version.lease == Taken(request, acquired) && Owns(part, request)
      && version.units == request.units && version.appended == Appends(request) && ClassOf(part, request) == Made(version.capacityUnits)
      && version.sealedFrom == SealedFrom(request, was.sealed)
      && now.sealed == Max(version.sealedFrom, UnitBytes(part, request.units))
      && RunsFit(version.runs, version.sealedFrom, |was.memory|) && now.memory == Written(was.memory, version.runs)
      && AsScripted(part, request, acquired, version, was.epoch)
  }

  /** The runs and the epoch are what the emit makes of what it is told. */
  predicate AsScripted(part: PartState, request: Request, acquired: Acquired, version: Version, held: nat) {
    request.emit.Emits? && ClassOf(part, request).Made? ==>
      var target := TargetOf(part, request, acquired, held);
      && version.caughtUpFrom == target.contentEpoch
      && version.runs == AllRuns(request.emit.script(target).calls)
      && request.emit.script(target).result == Some(version.contentEpoch)
  }

  /** And is published at the epoch its emit gave, the part's class raised to what the request made it. */
  predicate PartDone(part: PartState, request: Request, acquired: Acquired, version: Version, grown: PartState, was: Held, now: Held) {
    && PartWritten(part, request, acquired, version, was, now) && BelowKept(request, was, now)
    && (request.emit.Emits? ==> now.epoch == version.contentEpoch)
    && grown.highWater == Sized(part, request)
  }

  /** Written, and forgotten since: a later part threw. */
  predicate PartForgotten(part: PartState, request: Request, acquired: Acquired, version: Version, was: Held, now: Held) {
    && PartWritten(part, request, acquired, version, was, now) && BelowKept(request, was, now)
    && (request.emit.Emits? ==> now.epoch == 0)
  }

  /** The part that threw: taken or not, and then with the calls before the failing one landed. */
  ghost predicate PartThrown(part: PartState, request: Request, acquired: Acquired, taken: bool, was: Held, now: Held) {
    && BelowKept(request, was, now)
    && if taken then
         && Taken(request, acquired) != null && request.emit.Emits? && ClassOf(part, request).Made?
         && now.epoch == 0 && now.sealed == SealedFrom(request, was.sealed)
         && SomeLanded(was.memory, now.memory, SealedFrom(request, was.sealed),
              request.emit.script(TargetOf(part, request, acquired, was.epoch)).calls)
       else now == was
  }

  method PublishOne(part: PartState, request: Request, acquired: Acquired)
      returns (version: Version, grown: PartState, thrown: Option<Thrown>)
    requires Fitting(part, request, acquired)
    modifies TakenIn(request, acquired)`memory, TakenIn(request, acquired)`sealedBytes, TakenIn(request, acquired)`contentEpoch
    ensures Grown(part, grown) && thrown == EndOf(part, request, acquired, old(Now(request, acquired)))
    ensures thrown.None? ==> PartDone(part, request, acquired, version, grown, old(Now(request, acquired)), Now(request, acquired))
    ensures thrown.Some? ==>
      PartThrown(part, request, acquired, version.lease != null, old(Now(request, acquired)), Now(request, acquired))
  {
    var highWater: nat;
    version, highWater, thrown := PublishPart(part, request, acquired);
    grown := part.(highWater := highWater);
  }

  // ---- a whole publication ----

  function TakenSet(requests: seq<Request>, acquired: seq<Acquired>): set<Backing>
    requires |requests| == |acquired|
  {
    set i | 0 <= i < |requests| && Taken(requests[i], acquired[i]) != null :: Taken(requests[i], acquired[i])
  }

  /** The pools are the parts' own: no two parts take one backing. */
  predicate OwnBackings(requests: seq<Request>, acquired: seq<Acquired>)
    requires |requests| == |acquired|
  {
    forall i, j :: 0 <= i < j < |requests| && Taken(requests[i], acquired[i]) != null ==>
      Taken(requests[i], acquired[i]) != Taken(requests[j], acquired[j])
  }

  predicate Grown(former: PartState, part: PartState) {
    former.highWater <= part.highWater && part == former.(highWater := part.highWater)
  }

  datatype Publication = Published(versions: seq<Version>) | InvalidArgument | Failed(thrown: Thrown)

  function ThrownBy(publication: Publication): Option<Thrown> {
    if publication.Failed? then Some(publication.thrown) else None
  }

  /** The throw path: every lease taken so far holds nothing. */
  method ForgetAll(versions: seq<Version>)
    modifies set v | v in versions && v.lease != null :: v.lease`contentEpoch
    ensures forall v :: v in versions && v.lease != null ==> v.lease.contentEpoch == 0
  {
    for k := 0 to |versions|
      invariant forall j :: 0 <= j < k && versions[j].lease != null ==> versions[j].lease.contentEpoch == 0
    {
      if versions[k].lease != null { versions[k].lease.contentEpoch := 0; }
    }
  }

  /** Part number `index`: the other parts' backings are not touched. */
  method PublishNth(parts: seq<PartState>, requests: seq<Request>, acquired: seq<Acquired>, index: nat)
      returns (version: Version, grown: PartState, thrown: Option<Thrown>)
    requires index < |acquired| == |requests| == |parts| && OwnBackings(requests, acquired)
    requires Fitting(parts[index], requests[index], acquired[index])
    modifies TakenSet(requests, acquired)`memory, TakenSet(requests, acquired)`sealedBytes, TakenSet(requests, acquired)`contentEpoch
    ensures Grown(parts[index], grown)
    ensures thrown == EndOf(parts[index], requests[index], acquired[index], old(Now(requests[index], acquired[index])))
    ensures forall i :: 0 <= i < |parts| && i != index ==> Now(requests[i], acquired[i]) == old(Now(requests[i], acquired[i]))
    ensures var was, now := old(Now(requests[index], acquired[index])), Now(requests[index], acquired[index]);
      if thrown.None? then PartDone(parts[index], requests[index], acquired[index], version, grown, was, now)
      else PartThrown(parts[index], requests[index], acquired[index], version.lease != null, was, now)
  {
    version, grown, thrown := PublishOne(parts[index], requests[index], acquired[index]);
  }

  /** The first n parts go through. */
  predicate GoOn(parts: seq<PartState>, requests: seq<Request>, acquired: seq<Acquired>, was: seq<Held>, n: nat)
    requires n <= |parts| == |requests| == |acquired| == |was|
  {
    forall i :: 0 <= i < n ==> EndOf(parts[i], requests[i], acquired[i], was[i]) == None
  }

  /** A publication ends with part n, the first that throws, or with all of them. */
  predicate EndsAt(parts: seq<PartState>, requests: seq<Request>, acquired: seq<Acquired>, was: seq<Held>, n: nat, thrown: Option<Thrown>) {
    && n <= |parts| == |requests| == |acquired| == |was| && GoOn(parts, requests, acquired, was, n)
    && if thrown.None? then n == |parts| else n < |parts| && EndOf(parts[n], requests[n], acquired[n], was[n]) == thrown
  }

  /** So it publishes exactly when every part goes through, and there is one way it ends. */
  lemma EndsOneWay(parts: seq<PartState>, requests: seq<Request>, acquired: seq<Acquired>, was: seq<Held>, n: nat, thrown: Option<Thrown>,
      m: nat, other: Option<Thrown>)
    requires EndsAt(parts, requests, acquired, was, n, thrown)
    ensures thrown.None? <==> GoOn(parts, requests, acquired, was, |parts|)
    ensures EndsAt(parts, requests, acquired, was, m, other) ==> m == n && other == thrown
  {}

  /** Part by part, up to the first that throws; `was` is what their backings held before. */
  method PublishEach(parts: seq<PartState>, requests: seq<Request>, acquired: seq<Acquired>, ghost was: seq<Held>)
      returns (versions: seq<Version>, grown: seq<PartState>, thrown: Option<Thrown>, ghost taken: bool)
    requires |acquired| == |requests| == |parts| == |was| && OwnBackings(requests, acquired)
    requires forall i :: 0 <= i < |parts| ==> Fitting(parts[i], requests[i], acquired[i]) && was[i] == Now(requests[i], acquired[i])
    modifies TakenSet(requests, acquired)`memory, TakenSet(requests, acquired)`sealedBytes, TakenSet(requests, acquired)`contentEpoch
    ensures |grown| == |parts| && forall i :: 0 <= i < |parts| ==> Grown(parts[i], grown[i])
    ensures if thrown.Some? then |versions| < |parts| else |versions| == |parts|
    ensures EndsAt(parts, requests, acquired, was, |versions|, thrown)
    ensures forall i :: 0 <= i < |versions| ==>
      PartDone(parts[i], requests[i], acquired[i], versions[i], grown[i], was[i], Now(requests[i], acquired[i]))
    ensures thrown.Some? ==> var n := |versions|;
      PartThrown(parts[n], requests[n], acquired[n], taken, was[n], Now(requests[n], acquired[n]))
    ensures forall i :: |versions| < i < |parts| ==> Now(requests[i], acquired[i]) == was[i]
  {
    versions, grown, taken := [], parts, false;
    ghost var now := was;
    for index := 0 to |parts|
      invariant |versions| == index && |grown| == |now| == |parts|
      invariant forall i :: 0 <= i < |parts| ==> Grown(parts[i], grown[i]) && now[i] == Now(requests[i], acquired[i])
      invariant forall i :: 0 <= i < index ==> PartDone(parts[i], requests[i], acquired[i], versions[i], grown[i], was[i], now[i])
      invariant forall i :: index <= i < |parts| ==> now[i] == was[i]
      invariant GoOn(parts, requests, acquired, was, index)
    {
      var version, part, failure := PublishNth(parts, requests, acquired, index);
      now := now[index := Now(requests[index], acquired[index])];
      grown := grown[index := part];
      if failure.Some? { return versions, grown, failure, version.lease != null; }
      versions := versions + [version];
    }
    thrown := None;
  }

  /** The try block; a throw forgets what was taken before it. */
  method PublishAll(parts: seq<PartState>, requests: seq<Request>, acquired: seq<Acquired>, ghost was: seq<Held>)
      returns (versions: seq<Version>, grown: seq<PartState>, thrown: Option<Thrown>, ghost taken: bool)
    requires |acquired| == |requests| == |parts| == |was| && OwnBackings(requests, acquired)
    requires forall i :: 0 <= i < |parts| ==> Fitting(parts[i], requests[i], acquired[i]) && was[i] == Now(requests[i], acquired[i])
    modifies TakenSet(requests, acquired)`memory, TakenSet(requests, acquired)`sealedBytes, TakenSet(requests, acquired)`contentEpoch
    ensures |grown| == |parts| && forall i :: 0 <= i < |parts| ==> Grown(parts[i], grown[i])
    ensures if thrown.Some? then |versions| < |parts| else |versions| == |parts|
    ensures EndsAt(parts, requests, acquired, was, |versions|, thrown)
    ensures forall i :: 0 <= i < |versions| && thrown.None? ==>
      PartDone(parts[i], requests[i], acquired[i], versions[i], grown[i], was[i], Now(requests[i], acquired[i]))
    ensures forall i :: 0 <= i < |versions| && thrown.Some? ==>
      PartForgotten(parts[i], requests[i], acquired[i], versions[i], was[i], Now(requests[i], acquired[i]))
    ensures thrown.Some? ==> var n := |versions|;
      PartThrown(parts[n], requests[n], acquired[n], taken, was[n], Now(requests[n], acquired[n]))
    ensures forall i :: |versions| < i < |parts| ==> Now(requests[i], acquired[i]) == was[i]
  {
    versions, grown, thrown, taken := PublishEach(parts, requests, acquired, was);
    if thrown.Some? {
      forall i | 0 <= i < |versions| ensures versions[i] in versions && (requests[i].emit.Emits? ==> versions[i].lease != null) {}
      ForgetAll(versions);
    }
  }

  /** What every part's backing holds. */
  ghost function AllNow(requests: seq<Request>, acquired: seq<Acquired>): (r: seq<Held>)
    requires |requests| == |acquired|
    reads TakenSet(requests, acquired)`memory, TakenSet(requests, acquired)`sealedBytes, TakenSet(requests, acquired)`contentEpoch
    ensures |r| == |requests| && forall i :: 0 <= i < |r| ==> r[i] == Now(requests[i], acquired[i])
    decreases |requests|
  {
    if requests == [] then []
    else
      var n := |requests| - 1;
      assert forall b :: b in TakenSet(requests[..n], acquired[..n]) ==> b in TakenSet(requests, acquired);
      AllNow(requests[..n], acquired[..n]) + [Now(requests[n], acquired[n])]
  }

  class JournaledBufferSet {
    var parts: seq<PartState>

    constructor (parts: seq<PartState>)
      ensures this.parts == parts
    {
      this.parts := parts;
    }

    /** One publication, a request for each part: every present part written, or everything taken forgotten. In neither case does a
        byte below a mark move. `made` is what the parts before a throw had become, `taken` whether the one that threw had its backing. */
    method Publish(requests: seq<Request>, acquired: seq<Acquired>)
        returns (publication: Publication, ghost made: seq<Version>, ghost taken: bool)
      requires |acquired| == |requests| && OwnBackings(requests, acquired)
      requires |requests| == |parts| ==> forall i :: 0 <= i < |parts| ==> Fitting(parts[i], requests[i], acquired[i])
      modifies this, TakenSet(requests, acquired)`memory, TakenSet(requests, acquired)`sealedBytes, TakenSet(requests, acquired)`contentEpoch
      ensures publication == InvalidArgument <==> |requests| != |old(parts)|
      ensures publication == InvalidArgument ==> parts == old(parts) && forall b :: b in TakenSet(requests, acquired) ==> unchanged(b)
      ensures |parts| == |old(parts)| && forall i :: 0 <= i < |parts| ==> Grown(old(parts)[i], parts[i])
      ensures |requests| == |parts| ==>
        forall i :: 0 <= i < |parts| ==> BelowKept(requests[i], old(Now(requests[i], acquired[i])), Now(requests[i], acquired[i]))
      ensures |requests| == |old(parts)| ==>
        EndsAt(old(parts), requests, acquired, old(AllNow(requests, acquired)), |made|, ThrownBy(publication))
      ensures publication.Published? ==> made == publication.versions && |made| == |parts|
      ensures publication.Published? ==> forall i :: 0 <= i < |parts| ==>
        PartDone(old(parts)[i], requests[i], acquired[i], made[i], parts[i], old(Now(requests[i], acquired[i])), Now(requests[i], acquired[i]))
      ensures publication.Failed? ==> |made| < |parts|
      ensures publication.Failed? ==> forall i :: 0 <= i < |made| ==>
        PartForgotten(old(parts)[i], requests[i], acquired[i], made[i], old(Now(requests[i], acquired[i])), Now(requests[i], acquired[i]))
      ensures publication.Failed? ==> var n := |made|;
        PartThrown(old(parts)[n], requests[n], acquired[n], taken, old(Now(requests[n], acquired[n])), Now(requests[n], acquired[n]))
      ensures publication.Failed? ==> forall i :: |made| < i < |parts| ==> Now(requests[i], acquired[i]) == old(Now(requests[i], acquired[i]))
    {
      if |requests| != |parts| { return InvalidArgument, [], false; }
      var versions, grown, thrown;
      versions, grown, thrown, taken := PublishAll(parts, requests, acquired, AllNow(requests, acquired));
      parts, made := grown, versions;
      if thrown.Some? { return Failed(thrown.value), made, taken; }
      publication := Published(versions);
    }
  }
}
