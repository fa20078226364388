/** A journaled buffer set over whole runs (src/JournaledBufferSet.cpp, with the lease counts and reuse test of src/BackingPool.cpp):
    one publisher leases, emits, appends and discards while other threads copy, bind and release leases and the clock advances.

    The publisher's steps are its atomic ones: taking a backing, each sink write, sealing, each lease dropped by the throw path. A
    lease is a handle; a version is named by the handles to it and by the frames that bound it. */
module JournaledSetRun {
  import opened Bytes

  datatype Backing = Backing(capacity: nat, memory: seq<byte>, epoch: nat, sealed: nat, leases: nat, safeAt: nat)

  /** A published part: its named bytes, and the last clock point a frame bound through it. */
  datatype Version = Version(backing: nat, bytes: seq<byte>, bound: nat)

  datatype Handle = Handle(backing: nat, version: Option<nat>)

  datatype Publisher =
    | Idle
    | Between(leases: set<nat>)                                      // the handles of the parts made so far
    | Emitting(backing: nat, floor: nat, handle: nat, leases: set<nat>)
    | Unwinding(leases: set<nat>)                                    // the throw path: the handles still to drop

  datatype State = State(
    backings: map<nat, Backing>,
    versions: map<nat, Version>,
    handles: map<nat, Handle>,
    completed: nat,
    publisher: Publisher)

  datatype Action =
    | Begin
    | Allocate(id: nat, h: nat, memory: seq<byte>)
    | Reuse(id: nat, h: nat)
    | Append(head: nat, h: nat)
    | SinkWrite(offset: nat, data: seq<byte>)
    | Seal(bytes: nat, epoch: nat, version: nat)
    | Throw
    | DropOne(h: nat)
    | Unwound
    | Finish
    | Copy(h: nat, other: nat)
    | Release(h: nat)
    | Bind(h: nat, safeAt: nat)
    | Advance(completed: nat)
    | Discard(h: nat)

  function Own(p: Publisher): set<nat> {
    match p
    case Idle => {}
    case Between(leases) => leases
    case Emitting(_, _, h, leases) => leases + {h}
    case Unwinding(leases) => leases
  }

  /** A handle some caller has: not one the publisher has not returned yet. */
  predicate Held(s: State, h: nat) {
    h in s.handles && h !in Own(s.publisher)
  }

  predicate Enabled(s: State, a: Action) {
    match a
    case Begin => s.publisher.Idle?
    case Allocate(id, h, _) => s.publisher.Between? && id !in s.backings && h !in s.handles
    case Reuse(id, h) =>
      && s.publisher.Between? && id in s.backings && h !in s.handles
      && s.backings[id].leases == 0 && s.completed >= s.backings[id].safeAt
    case Append(head, h) => s.publisher.Between? && Held(s, head) && h !in s.handles && s.handles[head].backing in s.backings
    case SinkWrite(offset, data) =>
      && s.publisher.Emitting? && s.publisher.backing in s.backings
      && s.publisher.floor <= offset && offset + |data| <= s.backings[s.publisher.backing].capacity
      && offset + |data| <= |s.backings[s.publisher.backing].memory|
    case Seal(bytes, _, v) =>
      && s.publisher.Emitting? && v !in s.versions && s.publisher.handle in s.handles && s.publisher.backing in s.backings
      && bytes <= s.backings[s.publisher.backing].capacity && bytes <= |s.backings[s.publisher.backing].memory|
    case Throw => s.publisher.Between? || s.publisher.Emitting?
    case DropOne(h) => s.publisher.Unwinding? && h in s.publisher.leases && h in s.handles && s.handles[h].backing in s.backings
    case Unwound => s.publisher.Unwinding? && s.publisher.leases == {}
    case Finish => s.publisher.Between?
    case Copy(h, other) => Held(s, h) && other !in s.handles && s.handles[h].backing in s.backings
    case Release(h) => Held(s, h) && s.handles[h].backing in s.backings
    case Bind(h, _) => Held(s, h) && s.handles[h].backing in s.backings && s.handles[h].version.Some? && s.handles[h].version.value in s.versions
    case Advance(_) => true
    case Discard(h) => Held(s, h) && s.handles[h].backing in s.backings
  }

  /** `leases.fetch_add` and the new handle. */
  function Lease(s: State, h: nat, handle: Handle): State
    requires handle.backing in s.backings
  {
    var b := s.backings[handle.backing];
    s.(backings := s.backings[handle.backing := b.(leases := b.leases + 1)], handles := s.handles[h := handle])
  }

  /** `leases.fetch_sub` and the handle gone. */
  function Unlease(s: State, h: nat): State
    requires h in s.handles && s.handles[h].backing in s.backings
  {
    var b := s.backings[s.handles[h].backing];
    s.(backings := s.backings[s.handles[h].backing := b.(leases := if b.leases == 0 then 0 else b.leases - 1)],
       handles := s.handles - {h})
  }

  function Forgotten(s: State, id: nat): State
    requires id in s.backings
  {
    s.(backings := s.backings[id := s.backings[id].(epoch := 0)])
  }

  function AllocateStep(s: State, id: nat, h: nat, memory: seq<byte>): State
    requires s.publisher.Between?
  {
    s.(backings := s.backings[id := Backing(|memory|, memory, 0, 0, 1, 0)], handles := s.handles[h := Handle(id, None)],
       publisher := Emitting(id, 0, h, s.publisher.leases))
  }

  function ReuseStep(s: State, id: nat, h: nat): State
    requires s.publisher.Between? && id in s.backings
  {
    s.(backings := s.backings[id := s.backings[id].(epoch := 0, sealed := 0, leases := 1)], handles := s.handles[h := Handle(id, None)],
       publisher := Emitting(id, 0, h, s.publisher.leases))
  }

  function AppendStep(s: State, id: nat, h: nat): State
    requires s.publisher.Between? && id in s.backings
  {
    var b := s.backings[id];
    s.(backings := s.backings[id := b.(epoch := 0, leases := b.leases + 1)], handles := s.handles[h := Handle(id, None)],
       publisher := Emitting(id, b.sealed, h, s.publisher.leases))
  }

  function WriteStep(s: State, id: nat, offset: nat, data: seq<byte>): State
    requires id in s.backings && offset + |data| <= |s.backings[id].memory|
  {
    var b := s.backings[id];
    s.(backings := s.backings[id := b.(memory := Overwrite(b.memory, offset, data))])
  }

  function SealStep(s: State, bytes: nat, epoch: nat, v: nat): State
    requires Enabled(s, Seal(bytes, epoch, v))
  {
    var p := s.publisher;
    var b := s.backings[p.backing];
    s.(backings := s.backings[p.backing := b.(epoch := epoch, sealed := Max(p.floor, bytes))],
       versions := s.versions[v := Version(p.backing, b.memory[..bytes], 0)],
       handles := s.handles[p.handle := Handle(p.backing, Some(v))],
       publisher := Between(p.leases + {p.handle}))
  }

  function BindStep(s: State, h: nat, safeAt: nat): State
    requires Enabled(s, Bind(h, safeAt))
  {
    var id, v := s.handles[h].backing, s.handles[h].version.value;
    s.(backings := s.backings[id := s.backings[id].(safeAt := Max(s.backings[id].safeAt, safeAt))],
       versions := s.versions[v := s.versions[v].(bound := Max(s.versions[v].bound, safeAt))])
  }

  function Apply(s: State, a: Action): State
    requires Enabled(s, a)
  {
    match a
    case Begin => s.(publisher := Between({}))
    case Allocate(id, h, memory) => AllocateStep(s, id, h, memory)
    case Reuse(id, h) => ReuseStep(s, id, h)
    case Append(head, h) => AppendStep(s, s.handles[head].backing, h)
    case SinkWrite(offset, data) => WriteStep(s, s.publisher.backing, offset, data)
    case Seal(bytes, epoch, v) => SealStep(s, bytes, epoch, v)
    case Throw => s.(publisher := Unwinding(Own(s.publisher)))
    case DropOne(h) => Unlease(Forgotten(s, s.handles[h].backing), h).(publisher := Unwinding(s.publisher.leases - {h}))
    case Unwound => s.(publisher := Idle)
    case Finish => s.(publisher := Idle)
    case Copy(h, other) => Lease(s, other, s.handles[h])
    case Release(h) => Unlease(s, h)
    case Bind(h, safeAt) => BindStep(s, h, safeAt)
    case Advance(completed) => s.(completed := Max(s.completed, completed))
    case Discard(h) => Forgotten(s, s.handles[h].backing)
  }

  // ---- the invariant ----

  function HandlesOn(handles: map<nat, Handle>, id: nat): set<nat> {
    set h | h in handles && handles[h].backing == id
  }

  /** A lease names the version, or a frame that bound it has not retired. */
  predicate Live(handles: map<nat, Handle>, completed: nat, v: nat, version: Version) {
    (exists h :: h in handles && handles[h].version == Some(v)) || completed < version.bound
  }

  predicate Shows(b: Backing, version: Version) {
    |version.bytes| <= b.sealed && |version.bytes| <= |b.memory| && b.memory[..|version.bytes|] == version.bytes
  }

  /** Lease counts are exact. */
  ghost predicate Counted(backings: map<nat, Backing>, handles: map<nat, Handle>) {
    && (forall h :: h in handles ==> handles[h].backing in backings)
    && (forall id :: id in backings ==> backings[id].leases == |HandlesOn(handles, id)|)
  }

  ghost predicate Consistent(backings: map<nat, Backing>, versions: map<nat, Version>, handles: map<nat, Handle>) {
    && (forall h :: h in handles && handles[h].version.Some? ==>
          handles[h].version.value in versions && versions[handles[h].version.value].backing == handles[h].backing)
    && (forall v :: v in versions ==> versions[v].backing in backings && versions[v].bound <= backings[versions[v].backing].safeAt)
    && (forall id :: id in backings ==> |backings[id].memory| == backings[id].capacity && backings[id].sealed <= backings[id].capacity)
  }

  /** The sealed mark covers every live version, and none of its bytes has moved. */
  ghost predicate Sealed(backings: map<nat, Backing>, versions: map<nat, Version>, handles: map<nat, Handle>, completed: nat) {
    forall v :: v in versions && versions[v].backing in backings && Live(handles, completed, v, versions[v]) ==>
      Shows(backings[versions[v].backing], versions[v])
  }

  ghost predicate Publishing(backings: map<nat, Backing>, handles: map<nat, Handle>, p: Publisher) {
    && Own(p) <= handles.Keys
    && (p.Emitting? ==>
          && p.backing in backings && p.floor == backings[p.backing].sealed && handles[p.handle] == Handle(p.backing, None)
          && p.handle !in p.leases)
  }

  ghost predicate Inv(s: State) {
    && Counted(s.backings, s.handles) && Consistent(s.backings, s.versions, s.handles)
    && Sealed(s.backings, s.versions, s.handles, s.completed) && Publishing(s.backings, s.handles, s.publisher)
  }

  type Backings = map<nat, Backing>
  type Handles = map<nat, Handle>

  // ---- lease counts ----

  lemma HandlesWith(hs: Handles, h: nat, handle: Handle, id: nat)
    requires h !in hs
    ensures |HandlesOn(hs[h := handle], id)| == |HandlesOn(hs, id)| + if id == handle.backing then 1 else 0
  {
    assert HandlesOn(hs[h := handle], id) == HandlesOn(hs, id) + if id == handle.backing then {h} else {};
  }

  lemma AddCounted(bs: Backings, hs: Handles, h: nat, handle: Handle, b: Backing)
    requires Counted(bs, hs) && h !in hs && handle.backing in bs && b.leases == bs[handle.backing].leases + 1
    ensures Counted(bs[handle.backing := b], hs[h := handle])
  {
    forall id | id in bs ensures |HandlesOn(hs[h := handle], id)| == |HandlesOn(hs, id)| + if id == handle.backing then 1 else 0 {
      HandlesWith(hs, h, handle, id);
    }
  }

  lemma NewCounted(bs: Backings, hs: Handles, id: nat, h: nat, b: Backing)
    requires Counted(bs, hs) && h !in hs && id !in bs && b.leases == 1
    ensures Counted(bs[id := b], hs[h := Handle(id, None)])
  {
    var hs' := hs[h := Handle(id, None)];
    forall q | q in bs ensures HandlesOn(hs', q) == HandlesOn(hs, q) {}
    assert HandlesOn(hs', id) == {h};
  }

  lemma HandlesWithout(hs: Handles, h: nat, id: nat)
    requires h in hs
    ensures |HandlesOn(hs - {h}, id)| == |HandlesOn(hs, id)| - if id == hs[h].backing then 1 else 0
  {
    assert HandlesOn(hs, id) == HandlesOn(hs - {h}, id) + if id == hs[h].backing then {h} else {};
  }

  lemma DropCounted(bs: Backings, hs: Handles, h: nat, b: Backing)
    requires Counted(bs, hs) && h in hs && b.leases == bs[hs[h].backing].leases - 1
    ensures Counted(bs[hs[h].backing := b], hs - {h})
  {
    forall id | id in bs ensures |HandlesOn(hs - {h}, id)| == |HandlesOn(hs, id)| - if id == hs[h].backing then 1 else 0 {
      HandlesWithout(hs, h, id);
    }
  }

  lemma LeasesPositive(bs: Backings, hs: Handles, h: nat)
    requires Counted(bs, hs) && h in hs
    ensures bs[hs[h].backing].leases > 0
  {
    assert h in HandlesOn(hs, hs[h].backing);
  }

  /** A step that changes no count and no handle's backing. */
  lemma SameCounted(bs: Backings, bs': Backings, hs: Handles, hs': Handles)
    requires Counted(bs, hs) && bs'.Keys == bs.Keys && hs'.Keys == hs.Keys
    requires forall id :: id in bs ==> bs'[id].leases == bs[id].leases
    requires forall h :: h in hs ==> hs'[h].backing == hs[h].backing
    ensures Counted(bs', hs')
  {
    forall id | id in bs ensures HandlesOn(hs', id) == HandlesOn(hs, id) {}
  }

  // ---- what each step keeps ----

  /** A backing without leases, past its last bound frame, has no live version. */
  lemma ReusableIsDead(s: State, id: nat, v: nat)
    requires Counted(s.backings, s.handles) && Consistent(s.backings, s.versions, s.handles) && id in s.backings
    requires s.backings[id].leases == 0 && s.completed >= s.backings[id].safeAt && v in s.versions && s.versions[v].backing == id
    ensures !Live(s.handles, s.completed, v, s.versions[v])
  {
    forall h | h in s.handles ensures s.handles[h].version != Some(v) {
      assert HandlesOn(s.handles, id) == {};
      assert h !in HandlesOn(s.handles, id);
    }
  }

  lemma AllocateInv(s: State, id: nat, h: nat, memory: seq<byte>)
    requires Inv(s) && Enabled(s, Allocate(id, h, memory))
    ensures Inv(AllocateStep(s, id, h, memory))
  {
    var s' := AllocateStep(s, id, h, memory);
    NewCounted(s.backings, s.handles, id, h, s'.backings[id]);
    forall v | v in s.versions && Live(s'.handles, s.completed, v, s.versions[v]) ensures Shows(s'.backings[s.versions[v].backing], s.versions[v]) {
      assert Live(s.handles, s.completed, v, s.versions[v]);
    }
  }

  lemma ReuseInv(s: State, id: nat, h: nat)
    requires Inv(s) && Enabled(s, Reuse(id, h))
    ensures Inv(ReuseStep(s, id, h))
  {
    var s' := ReuseStep(s, id, h);
    AddCounted(s.backings, s.handles, h, Handle(id, None), s'.backings[id]);
    forall v | v in s.versions && Live(s'.handles, s.completed, v, s.versions[v]) ensures Shows(s'.backings[s.versions[v].backing], s.versions[v]) {
      assert Live(s.handles, s.completed, v, s.versions[v]);
      if s.versions[v].backing == id { ReusableIsDead(s, id, v); }
    }
  }

  lemma AppendInv(s: State, id: nat, h: nat)
    requires Inv(s) && s.publisher.Between? && id in s.backings && h !in s.handles
    ensures Inv(AppendStep(s, id, h))
  {
    var s' := AppendStep(s, id, h);
    AddCounted(s.backings, s.handles, h, Handle(id, None), s'.backings[id]);
    forall v | v in s.versions && Live(s'.handles, s.completed, v, s.versions[v]) ensures Shows(s'.backings[s.versions[v].backing], s.versions[v]) {
      assert Live(s.handles, s.completed, v, s.versions[v]);
    }
  }

  /** A write past the floor moves no byte below it. */
  lemma WriteInv(s: State, offset: nat, data: seq<byte>)
    requires Inv(s) && Enabled(s, SinkWrite(offset, data))
    ensures Inv(WriteStep(s, s.publisher.backing, offset, data))
  {
    var id := s.publisher.backing;
    var s' := WriteStep(s, id, offset, data);
    SameCounted(s.backings, s'.backings, s.handles, s'.handles);
    forall v | v in s.versions && Live(s.handles, s.completed, v, s.versions[v]) ensures Shows(s'.backings[s.versions[v].backing], s.versions[v]) {
      assert Shows(s.backings[s.versions[v].backing], s.versions[v]);
      if s.versions[v].backing == id {
        assert s'.backings[id].memory[..|s.versions[v].bytes|] == s.backings[id].memory[..|s.versions[v].bytes|];
      }
    }
  }

  /** The new version lies below the new mark; the marks of the others only rose. */
  lemma SealSealed(s: State, bytes: nat, epoch: nat, v: nat)
    requires Inv(s) && Enabled(s, Seal(bytes, epoch, v))
    ensures var s' := SealStep(s, bytes, epoch, v); Sealed(s'.backings, s'.versions, s'.handles, s'.completed)
  {
    var s' := SealStep(s, bytes, epoch, v);
    forall u | u in s'.versions && Live(s'.handles, s.completed, u, s'.versions[u])
      ensures Shows(s'.backings[s'.versions[u].backing], s'.versions[u])
    {
      if u != v {
        assert Live(s.handles, s.completed, u, s.versions[u]);
        assert Shows(s.backings[s.versions[u].backing], s.versions[u]);
      }
    }
  }

  lemma SealConsistent(s: State, bytes: nat, epoch: nat, v: nat)
    requires Enabled(s, Seal(bytes, epoch, v)) && Consistent(s.backings, s.versions, s.handles)
    requires Publishing(s.backings, s.handles, s.publisher)
    ensures var s' := SealStep(s, bytes, epoch, v);
      Consistent(s'.backings, s'.versions, s'.handles) && Publishing(s'.backings, s'.handles, s'.publisher)
  {}

  lemma SealCounted(s: State, bytes: nat, epoch: nat, v: nat)
    requires Enabled(s, Seal(bytes, epoch, v)) && Counted(s.backings, s.handles) && Publishing(s.backings, s.handles, s.publisher)
    ensures var s' := SealStep(s, bytes, epoch, v); Counted(s'.backings, s'.handles)
  {
    var s' := SealStep(s, bytes, epoch, v);
    SameCounted(s.backings, s'.backings, s.handles, s'.handles);
  }

  lemma SealInv(s: State, bytes: nat, epoch: nat, v: nat)
    requires Inv(s) && Enabled(s, Seal(bytes, epoch, v))
    ensures Inv(SealStep(s, bytes, epoch, v))
  {
    SealSealed(s, bytes, epoch, v);
    SealConsistent(s, bytes, epoch, v);
    SealCounted(s, bytes, epoch, v);
  }

  lemma ForgottenInv(s: State, id: nat)
    requires Inv(s) && id in s.backings
    ensures Inv(Forgotten(s, id))
  {
    var s' := Forgotten(s, id);
    SameCounted(s.backings, s'.backings, s.handles, s'.handles);
  }

  /** A lease less: versions may die, and none comes to life. */
  lemma UnleaseInv(s: State, h: nat, publisher: Publisher)
    requires Inv(s) && h in s.handles && Own(publisher) <= s.handles.Keys - {h}
    requires publisher.Emitting? ==> publisher == s.publisher
    ensures Inv(Unlease(s, h).(publisher := publisher))
  {
    var s' := Unlease(s, h);
    LeasesPositive(s.backings, s.handles, h);
    DropCounted(s.backings, s.handles, h, s'.backings[s.handles[h].backing]);
    forall v | v in s.versions && Live(s'.handles, s.completed, v, s.versions[v]) ensures Shows(s'.backings[s.versions[v].backing], s.versions[v]) {
      assert Live(s.handles, s.completed, v, s.versions[v]);
    }
  }

  lemma CopyInv(s: State, h: nat, other: nat)
    requires Inv(s) && Enabled(s, Copy(h, other))
    ensures Inv(Lease(s, other, s.handles[h]))
  {
    var s' := Lease(s, other, s.handles[h]);
    AddCounted(s.backings, s.handles, other, s.handles[h], s'.backings[s.handles[h].backing]);
    forall v | v in s.versions && Live(s'.handles, s.completed, v, s.versions[v]) ensures Shows(s'.backings[s.versions[v].backing], s.versions[v]) {
      assert s.handles[h].version == Some(v) || Live(s.handles, s.completed, v, s.versions[v]);
      assert Live(s.handles, s.completed, v, s.versions[v]);
    }
  }

  lemma BindInv(s: State, h: nat, safeAt: nat)
    requires Inv(s) && Enabled(s, Bind(h, safeAt))
    ensures Inv(BindStep(s, h, safeAt))
  {
    var s' := BindStep(s, h, safeAt);
    SameCounted(s.backings, s'.backings, s.handles, s'.handles);
    var w := s.handles[h].version.value;
    assert Live(s.handles, s.completed, w, s.versions[w]);
    forall v | v in s'.versions && Live(s'.handles, s.completed, v, s'.versions[v]) ensures Shows(s'.backings[s'.versions[v].backing], s'.versions[v]) {
      assert v != w ==> Live(s.handles, s.completed, v, s.versions[v]);
      assert Shows(s.backings[s.versions[v].backing], s.versions[v]);
    }
  }

  lemma AdvanceInv(s: State, completed: nat)
    requires Inv(s)
    ensures Inv(s.(completed := Max(s.completed, completed)))
  {
    forall v | v in s.versions && Live(s.handles, Max(s.completed, completed), v, s.versions[v]) ensures Live(s.handles, s.completed, v, s.versions[v]) {}
  }

  lemma StepInv(s: State, a: Action)
    requires Inv(s) && Enabled(s, a)
    ensures Inv(Apply(s, a))
  {
    match a
    case Begin =>
    case Allocate(id, h, memory) => AllocateInv(s, id, h, memory);
    case Reuse(id, h) => ReuseInv(s, id, h);
    case Append(head, h) => AppendInv(s, s.handles[head].backing, h);
    case SinkWrite(offset, data) => WriteInv(s, offset, data);
    case Seal(bytes, epoch, v) => SealInv(s, bytes, epoch, v);
    case DropOne(h) =>
      ForgottenInv(s, s.handles[h].backing);
      UnleaseInv(Forgotten(s, s.handles[h].backing), h, Unwinding(s.publisher.leases - {h}));
    case Copy(h, other) => CopyInv(s, h, other);
    case Release(h) => UnleaseInv(s, h, s.publisher);
    case Bind(h, safeAt) => BindInv(s, h, safeAt);
    case Advance(completed) => AdvanceInv(s, completed);
    case Discard(h) => ForgottenInv(s, s.handles[h].backing);
    case _ =>
  }

  // ---- runs ----

  predicate Init(s: State) {
    s.backings == map[] && s.versions == map[] && s.handles == map[] && s.publisher == Idle
  }

  predicate IsRun(run: seq<State>, acts: seq<Action>) {
    && |run| == |acts| + 1 && Init(run[0])
    && forall i :: 0 <= i < |acts| ==> Enabled(run[i], acts[i]) && run[i + 1] == Apply(run[i], acts[i])
  }

  lemma {:induction false} RunInv(run: seq<State>, acts: seq<Action>, i: nat)
    requires IsRun(run, acts) && i < |run|
    ensures Inv(run[i])
  {
    if i > 0 {
      RunInv(run, acts, i - 1);
      StepInv(run[i - 1], acts[i - 1]);
    }
  }

  lemma StepVersions(s: State, a: Action, v: nat)
    requires Inv(s) && Enabled(s, a) && v in s.versions
    ensures v in Apply(s, a).versions
    ensures Apply(s, a).versions[v].backing == s.versions[v].backing && Apply(s, a).versions[v].bytes == s.versions[v].bytes
  {}

  lemma {:induction false} VersionsKeep(run: seq<State>, acts: seq<Action>, i: nat, j: nat, v: nat)
    requires IsRun(run, acts) && i <= j < |run| && v in run[i].versions
    ensures v in run[j].versions
    ensures run[j].versions[v].backing == run[i].versions[v].backing && run[j].versions[v].bytes == run[i].versions[v].bytes
    decreases j
  {
    if i < j {
      VersionsKeep(run, acts, i, j - 1, v);
      RunInv(run, acts, j - 1);
      StepVersions(run[j - 1], acts[j - 1], v);
    }
  }

  /** The bytes a published version names are the ones it was published with, for as long as a lease names it or a frame that bound it
      has not retired - whatever the publisher leases, appends, throws out of or discards meanwhile; and its backing's sealed mark
      covers them. */
  lemma NamedBytesNeverChange(run: seq<State>, acts: seq<Action>, i: nat, j: nat, v: nat)
    requires IsRun(run, acts) && i <= j < |run| && v in run[i].versions
    requires v in run[j].versions ==> Live(run[j].handles, run[j].completed, v, run[j].versions[v])
    ensures v in run[j].versions && run[i].versions[v].backing in run[j].backings
    ensures var b, bytes := run[j].backings[run[i].versions[v].backing], run[i].versions[v].bytes;
      |bytes| <= b.sealed && |bytes| <= |b.memory| && b.memory[..|bytes|] == bytes
  {
    VersionsKeep(run, acts, i, j, v);
    RunInv(run, acts, j);
  }

  /** A version is published with what its backing then holds, below the new mark. */
  lemma PublishedWithItsBytes(s: State, bytes: nat, epoch: nat, v: nat)
    requires Inv(s) && Enabled(s, Seal(bytes, epoch, v))
    ensures var s' := Apply(s, Seal(bytes, epoch, v));
      && v in s'.versions && |s'.versions[v].bytes| == bytes && Live(s'.handles, s'.completed, v, s'.versions[v])
      && s'.backings[s.publisher.backing].sealed == Max(s.backings[s.publisher.backing].sealed, bytes)
      && s'.backings[s.publisher.backing].memory[..bytes] == s'.versions[v].bytes
  {
    assert SealStep(s, bytes, epoch, v).handles[s.publisher.handle].version == Some(v);
  }

  /** A backing is only leased again once no live version names a byte of it. */
  lemma ReuseIsSafe(run: seq<State>, acts: seq<Action>, i: nat, v: nat)
    requires IsRun(run, acts) && i < |acts| && acts[i].Reuse? && v in run[i].versions && run[i].versions[v].backing == acts[i].id
    ensures !Live(run[i].handles, run[i].completed, v, run[i].versions[v])
  {
    RunInv(run, acts, i);
    ReusableIsDead(run[i], acts[i].id, v);
  }
}
