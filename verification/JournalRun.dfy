/** Journal catch-up over whole runs: one journal, its pool's backings and the versions built into them
    (src/BufferJournal.cpp, Build in src/VersionedBufferBuild.cpp).

    A step is one journal call, one capture, one build (whole, with whatever outcome), one release. What BufferJournal and Build
    promise of those calls is the step. `Kept` captures and builds may be old: a build may use any capture taken before it. */
module JournalRun {
  import opened Bytes
  import opened BufferImage
  import opened BackingMemory
  import opened JournalHistory
  import opened VersionedBufferReplay
  import opened VersionedBufferBuild

  /** What a backing holds and what the pool believes of it. */
  datatype Content = Content(memory: seq<byte>, epoch: nat, image: Option<Image>)

  datatype Captured = Captured(sequence: nat, base: nat, writes: seq<BufferWrite>, image: Image)

  /** A published version that someone still holds. */
  datatype Version = Version(sequence: nat, backing: nat, image: Image)

  datatype State = State(
    h: History,
    first: nat,
    base: nat,
    captures: set<Captured>,
    backings: map<nat, Content>,
    versions: set<Version>)

  datatype Action =
    | Journal(image: seq<byte>, w: BufferWrite)                       // AppendWrite, ReplaceImage or RequestCapacity
    | Acknowledge(base: nat)                                          // any floor
    | Take(c: Captured)
    | NewBacking(id: nat, memory: seq<byte>)
    | Ready(c: Captured, input: Input, id: nat, isNew: bool)          // a build that published
    | Abandoned(id: nat, memory: seq<byte>)                           // one that failed or stopped after it began to write
    | GpuWritten(c: Captured, id: nat)                                // a version the GPU writes whole
    | GpuWrites(id: nat, memory: seq<byte>)
    | Release(v: Version)

  predicate Leased(s: State, id: nat) {
    exists v :: v in s.versions && v.backing == id
  }

  /** The write shrinks the image only by replacing it whole. */
  predicate JournalStep(former: seq<byte>, image: seq<byte>, w: BufferWrite) {
    && Follows(former, image, w)
    && (|former| <= |image| || (w.offset == 0 && w.size == |image|))
  }

  predicate InputOf(c: Captured, input: Input) {
    && input.image == Some(c.image) && input.writes == c.writes && input.journalBaseSequence == c.base
    && input.writeSequence == c.sequence && !input.gpuWritten
  }

  function Uploads(c: Captured, input: Input, isNew: bool, content: Content): seq<Range> {
    Chosen(input, isNew, content.epoch, content.image, c.image)
  }

  predicate Enabled(s: State, a: Action) {
    match a
    case Journal(image, w) =>
      s.h.images != [] && w.sequence == |s.h.images| && JournalStep(s.h.images[|s.h.images| - 1], image, w)
    case Acknowledge(base) => s.base <= base < |s.h.images|
    case Take(c) =>
      && c.sequence == |s.h.images| - 1 && c.base == s.base && Kept(c.writes, s.h, Max(s.base, s.first))
      && Canonical(c.image) && Contents(c.image) == s.h.images[c.sequence]
    case NewBacking(id, _) => id !in s.backings
    case Ready(c, input, id, isNew) =>
      && c in s.captures && id in s.backings && !Leased(s, id) && InputOf(c, input) && Canonical(c.image)
      && Fits(Uploads(c, input, isNew, s.backings[id]), c.image.byteSize)
    case Abandoned(id, _) => id in s.backings && !Leased(s, id)
    case GpuWritten(c, id) => c in s.captures && id in s.backings && !Leased(s, id)
    case GpuWrites(id, _) => id in s.backings && s.backings[id].image == None
    case Release(v) => v in s.versions
  }

  function Built(c: Captured, input: Input, isNew: bool, content: Content): Content
    requires Canonical(c.image)
  {
    Content(UploadAll(content.memory, Uploads(c, input, isNew, content), Contents(c.image)), c.sequence, Some(c.image))
  }

  function Apply(s: State, a: Action): State
    requires Enabled(s, a)
  {
    match a
    case Journal(image, w) => s.(h := Extended(s.h, image, w))
    case Acknowledge(base) => s.(base := base)
    case Take(c) => s.(captures := s.captures + {c})
    case NewBacking(id, memory) => s.(backings := s.backings[id := Content(memory, 0, None)])
    case Ready(c, input, id, isNew) =>
      s.(backings := s.backings[id := Built(c, input, isNew, s.backings[id])],
         versions := s.versions + {Version(c.sequence, id, c.image)})
    case Abandoned(id, memory) => s.(backings := s.backings[id := Content(memory, 0, None)])
    case GpuWritten(c, id) => s.(backings := s.backings[id := Content(s.backings[id].memory, c.sequence, None)])
    case GpuWrites(id, memory) => s.(backings := s.backings[id := Content(memory, s.backings[id].epoch, None)])
    case Release(v) => s.(versions := s.versions - {v})
  }

  // ---- one build ----

  /** A capture is the journal's image and its writes after the base, at its sequence. */
  ghost predicate Faithful(h: History, first: nat, c: Captured) {
    && |h.log| == |h.images| && first <= c.sequence < |h.images| && c.base <= c.sequence
    && Canonical(c.image) && Contents(c.image) == h.images[c.sequence]
    && (forall q :: Max(c.base, first) < q <= c.sequence ==> h.log[q].Some? && h.log[q].value in c.writes)
    && (forall w :: w in c.writes ==> w.sequence <= c.sequence && h.log[w.sequence] == Some(w))
  }

  predicate Shows(memory: seq<byte>, image: Image) {
    Canonical(image) && image.byteSize <= |memory| && memory[..image.byteSize] == Contents(image)
  }

  /** A backing with an epoch and an image holds exactly the journal's image at that epoch. */
  ghost predicate Sound(h: History, first: nat, content: Content) {
    content.epoch != 0 && content.image.Some? ==>
      && first <= content.epoch < |h.images| && Shows(content.memory, content.image.value)
      && Contents(content.image.value) == h.images[content.epoch]
  }

  /** The build leaves byte i alone although it was cut off and zero-filled since, and the backing's is not zero. */
  predicate LeftStale(h: History, c: Captured, ranges: seq<Range>, epoch: nat, i: nat)
    requires epoch <= c.sequence < |h.images|
  {
    i < |h.images[epoch]| && !Covers(ranges, i) && Dropped(h, epoch, c.sequence, i) && h.images[epoch][i] != 0
  }

  lemma WrittenIsUploaded(h: History, first: nat, c: Captured, input: Input, content: Content, i: nat)
    requires JournalHistory.Valid(h, first) && Faithful(h, first, c) && InputOf(c, input) && NeedsContent(input)
    requires CatchesUp(input, false, content.epoch, content.image, c.image) && first <= content.epoch && i < c.image.byteSize
    requires Touched(h, content.epoch, c.sequence, i)
    ensures Covers(Uploads(c, input, false, content), i)
  {
    var q :| content.epoch < q <= c.sequence && h.log[q].Some? && Inside(h.log[q].value, i);
    assert h.log[q].value in c.writes;
    assert Rewritten(input.writes, content.epoch, i);
    RewrittenIsUploaded(input.writes, content.epoch, c.image.byteSize, i);
  }

  /** The byte a catch-up ends with. */
  lemma CaughtUpByte(h: History, first: nat, c: Captured, input: Input, content: Content, ranges: seq<Range>, i: nat)
    requires JournalHistory.Valid(h, first) && Faithful(h, first, c) && InputOf(c, input) && Sound(h, first, content)
    requires CatchesUp(input, false, content.epoch, content.image, c.image) && NeedsContent(input) && i < c.image.byteSize
    requires ranges == Uploads(c, input, false, content) && Fits(ranges, c.image.byteSize)
    ensures var memory := UploadAll(content.memory, ranges, Contents(c.image));
      c.image.byteSize <= |memory| && (memory[i] == Contents(c.image)[i] <==> !LeftStale(h, c, ranges, content.epoch, i))
  {
    UploadedByte(content.memory, ranges, Contents(c.image), i);
    assert content.memory[..content.image.value.byteSize][i] == content.memory[i];
    if !Covers(ranges, i) {
      if Touched(h, content.epoch, c.sequence, i) { WrittenIsUploaded(h, first, c, input, content, i); }
      UntouchedByte(h, first, content.epoch, c.sequence, i);
    }
  }

  lemma WholeUpload(c: Captured, input: Input, isNew: bool, content: Content)
    requires Canonical(c.image) && InputOf(c, input) && NeedsContent(input)
    requires !CatchesUp(input, isNew, content.epoch, content.image, c.image)
    requires Fits(Uploads(c, input, isNew, content), c.image.byteSize)
    ensures Shows(Built(c, input, isNew, content).memory, c.image)
  {
    var size, memory := c.image.byteSize, Built(c, input, isNew, content).memory;
    if size != 0 {
      forall i | 0 <= i < size ensures i < |memory| && memory[i] == Contents(c.image)[i] {
        UploadedByte(content.memory, [Range(0, size)], Contents(c.image), i);
        assert Range(0, size) in [Range(0, size)] && In(Range(0, size), i);
      }
      assert size - 1 < |memory|;
    }
  }

  predicate NothingLeft(h: History, c: Captured, ranges: seq<Range>, epoch: nat)
    requires epoch <= c.sequence < |h.images|
  {
    forall i :: 0 <= i < c.image.byteSize ==> !LeftStale(h, c, ranges, epoch, i)
  }

  lemma ShowsBytes(memory: seq<byte>, image: Image)
    requires Canonical(image) && image.byteSize <= |memory|
    ensures Shows(memory, image) <==> forall i :: 0 <= i < image.byteSize ==> memory[i] == Contents(image)[i]
  {
    assert forall i :: 0 <= i < image.byteSize ==> memory[..image.byteSize][i] == memory[i];
  }

  lemma CatchUpIsRight(h: History, first: nat, c: Captured, input: Input, content: Content)
    requires JournalHistory.Valid(h, first) && Faithful(h, first, c) && InputOf(c, input) && Sound(h, first, content)
    requires CatchesUp(input, false, content.epoch, content.image, c.image) && NeedsContent(input)
    requires Fits(Uploads(c, input, false, content), c.image.byteSize)
    ensures Shows(Built(c, input, false, content).memory, c.image) <==> NothingLeft(h, c, Uploads(c, input, false, content), content.epoch)
  {
    var ranges := Uploads(c, input, false, content);
    var memory := UploadAll(content.memory, ranges, Contents(c.image));
    forall i | 0 <= i < c.image.byteSize
      ensures c.image.byteSize <= |memory| && (memory[i] == Contents(c.image)[i] <==> !LeftStale(h, c, ranges, content.epoch, i))
    {
      CaughtUpByte(h, first, c, input, content, ranges, i);
    }
    if c.image.byteSize != 0 { CaughtUpByte(h, first, c, input, content, ranges, 0); }
    ShowsBytes(memory, c.image);
  }

  /** Of any backing at all, whatever it claims: a build is right exactly when every byte it leaves alone was the image's already. */
  lemma RightByteByByte(c: Captured, input: Input, isNew: bool, content: Content)
    requires Canonical(c.image) && Fits(Uploads(c, input, isNew, content), c.image.byteSize)
    ensures Shows(Built(c, input, isNew, content).memory, c.image) <==>
      && c.image.byteSize <= |Built(c, input, isNew, content).memory|
      && forall i: nat :: i < c.image.byteSize && !Covers(Uploads(c, input, isNew, content), i) ==>
           At(content.memory, i) == Contents(c.image)[i]
  {
    var memory, ranges := Built(c, input, isNew, content).memory, Uploads(c, input, isNew, content);
    if c.image.byteSize <= |memory| {
      forall i: nat | i < c.image.byteSize
        ensures memory[i] == if Covers(ranges, i) then Contents(c.image)[i] else At(content.memory, i)
      {
        UploadedByte(content.memory, ranges, Contents(c.image), i);
      }
      ShowsBytes(memory, c.image);
    }
  }

  /** Of a sound backing, a build is right exactly when it leaves no stale byte behind: always when it writes the backing whole; and when it skips the upload,
      exactly when the backing showed the image already. */
  lemma BuildIsRight(h: History, first: nat, c: Captured, input: Input, isNew: bool, content: Content)
    requires JournalHistory.Valid(h, first) && Faithful(h, first, c) && InputOf(c, input) && Sound(h, first, content)
    requires Fits(Uploads(c, input, isNew, content), c.image.byteSize)
    ensures Shows(Built(c, input, isNew, content).memory, c.image) <==>
      if !NeedsContent(input) then Shows(content.memory, c.image)
      else CatchesUp(input, isNew, content.epoch, content.image, c.image) ==>
             NothingLeft(h, c, Uploads(c, input, isNew, content), content.epoch)
  {
    if NeedsContent(input) {
      if CatchesUp(input, isNew, content.epoch, content.image, c.image) {
        CatchUpIsRight(h, first, c, input, content);
      } else {
        WholeUpload(c, input, isNew, content);
      }
    }
  }

  /** With no shrinking ReplaceImage since the backing's epoch, nothing is left stale, and every write lies inside the image. */
  lemma GrowingLeavesNothing(h: History, first: nat, c: Captured, ranges: seq<Range>, epoch: nat)
    requires epoch <= c.sequence < |h.images| && Grows(h, epoch, c.sequence)
    ensures NothingLeft(h, c, ranges, epoch)
  {
    GrowingIsNeverStale(h, epoch, c.sequence);
  }

  lemma GrowsTail(h: History, e: nat, q: nat, c: nat)
    requires e <= q <= c < |h.images| && Grows(h, e, c)
    ensures |h.images[q]| <= |h.images[c]|
  {
    GrowsMonotone(h, q, c, c);
  }

  lemma DirtyFits(h: History, first: nat, c: Captured, held: nat, r: Range)
    requires JournalHistory.Valid(h, first) && Faithful(h, first, c) && first <= held <= c.sequence && Grows(h, held, c.sequence)
    requires r in Dirty(c.writes, held)
    ensures End(r) <= c.image.byteSize
  {
    DirtyIs(c.writes, held, r);
    var w :| w in c.writes && held < w.sequence && r == Range(w.offset, w.size);
    assert h.log[w.sequence] == Some(w) && Follows(h.images[w.sequence - 1], h.images[w.sequence], w);
    GrowsTail(h, held, w.sequence, c.sequence);
  }

  /** So the page loop never runs off the image. */
  lemma GrowingFits(h: History, first: nat, c: Captured, input: Input, isNew: bool, content: Content)
    requires JournalHistory.Valid(h, first) && Faithful(h, first, c) && InputOf(c, input) && Sound(h, first, content)
    requires CatchesUp(input, isNew, content.epoch, content.image, c.image) ==> Grows(h, content.epoch, c.sequence)
    ensures Fits(Uploads(c, input, isNew, content), c.image.byteSize)
  {
    var ranges := Uploads(c, input, isNew, content);
    forall m | m in ranges ensures End(m) <= c.image.byteSize {
      if NeedsContent(input) && CatchesUp(input, isNew, content.epoch, content.image, c.image) && m != Range(0, c.image.byteSize) {
        var sorted := Sort(Dirty(c.writes, content.epoch));
        MergeNear(sorted, m);
        var r :| r in sorted && End(r) == End(m);
        assert r in multiset(Dirty(c.writes, content.epoch));
        DirtyFits(h, first, c, content.epoch, r);
      }
    }
  }

  // ---- runs ----

  /** A version someone holds: its backing is its own, and shows its image, the journal's at its sequence. */
  ghost predicate Intact(h: History, backings: map<nat, Content>, v: Version) {
    && v.backing in backings && backings[v.backing].image == Some(v.image) && v.sequence < |h.images|
    && Shows(backings[v.backing].memory, v.image) && Contents(v.image) == h.images[v.sequence]
  }

  ghost predicate Inv(s: State) {
    && JournalHistory.Valid(s.h, s.first) && s.base < |s.h.images|
    && (forall c :: c in s.captures ==> Faithful(s.h, s.first, c))
    && (forall id :: id in s.backings ==> Sound(s.h, s.first, s.backings[id]))
    && (forall v :: v in s.versions ==> Intact(s.h, s.backings, v))
    && (forall v, u :: v in s.versions && u in s.versions && v.backing == u.backing ==> v == u)
  }

  /** The build, if it catches up, leaves nothing stale; if it skips the upload, the backing shows its image already. */
  predicate Clean(s: State, a: Action)
    requires Enabled(s, a)
  {
    match a
    case Ready(c, input, id, isNew) =>
      var content := s.backings[id];
      if !NeedsContent(input) then Shows(content.memory, c.image)
      else CatchesUp(input, isNew, content.epoch, content.image, c.image) && content.epoch <= c.sequence < |s.h.images| ==>
        NothingLeft(s.h, c, Uploads(c, input, isNew, content), content.epoch)
    case _ => true
  }

  lemma JournalKeeps(s: State, image: seq<byte>, w: BufferWrite)
    requires Inv(s) && Enabled(s, Journal(image, w))
    ensures Inv(Apply(s, Journal(image, w)))
  {
    var h := Extended(s.h, image, w);
    ExtendedValid(s.h, s.first, image, w);
    forall c | c in s.captures ensures Faithful(h, s.first, c) {}
  }

  lemma TakeKeeps(s: State, c: Captured)
    requires Inv(s) && Enabled(s, Take(c))
    ensures Inv(Apply(s, Take(c)))
  {
    var from := Max(s.base, s.first);
    forall q | from < q <= c.sequence ensures s.h.log[q].Some? && s.h.log[q].value in c.writes {
      assert s.h.log[from + 1 + (q - from - 1)] == Some(c.writes[q - from - 1]);
    }
    forall w | w in c.writes ensures w.sequence <= c.sequence && s.h.log[w.sequence] == Some(w) {
      var k :| 0 <= k < |c.writes| && c.writes[k] == w;
      assert s.h.log[from + 1 + k] == Some(w);
    }
  }

  lemma ReadyKeeps(s: State, a: Action)
    requires Inv(s) && Enabled(s, a) && a.Ready? && Clean(s, a)
    ensures Inv(Apply(s, a))
  {
    var c, id := a.c, a.id;
    var content, s' := s.backings[id], Apply(s, a);
    BuildIsRight(s.h, s.first, c, a.input, a.isNew, content);
    assert Sound(s.h, s.first, s'.backings[id]);
    forall v | v in s.versions ensures Intact(s.h, s'.backings, v) { assert v.backing != id; }
  }

  lemma StepInv(s: State, a: Action)
    requires Inv(s) && Enabled(s, a) && Clean(s, a)
    ensures Inv(Apply(s, a))
  {
    match a
    case Journal(image, w) => JournalKeeps(s, image, w);
    case Take(c) => TakeKeeps(s, c);
    case Ready(_, _, _, _) => ReadyKeeps(s, a);
    case _ => OtherKeeps(s, a);
  }

  lemma OtherKeeps(s: State, a: Action)
    requires Inv(s) && Enabled(s, a) && !a.Journal? && !a.Take? && !a.Ready?
    ensures Inv(Apply(s, a))
  {
    var s' := Apply(s, a);
    forall v | v in s'.versions ensures Intact(s.h, s'.backings, v) { assert Leased(s, v.backing); assert Intact(s.h, s.backings, v); }
  }

  /** The journal's start: empty at sequence 0, or initialized once to an image at sequence 1. */
  predicate Init(s: State) {
    && s.base == 0 && s.captures == {} && s.backings == map[] && s.versions == {}
    && (|| (s.first == 0 && s.h == History([[]], [None]))
        || (s.first == 1 && |s.h.images| == 2 && s.h == History([[], s.h.images[1]], [None, None])))
  }

  predicate IsRun(run: seq<State>, acts: seq<Action>) {
    && |run| == |acts| + 1 && Init(run[0])
    && forall i :: 0 <= i < |acts| ==> Enabled(run[i], acts[i]) && run[i + 1] == Apply(run[i], acts[i])
  }

  /** No journal call makes the image shorter. */
  predicate NeverShrinks(run: seq<State>, acts: seq<Action>)
    requires IsRun(run, acts)
  {
    forall i :: 0 <= i < |acts| && acts[i].Journal? ==> |run[i].h.images[|run[i].h.images| - 1]| <= |acts[i].image|
  }

  /** A build that skips its upload was leased a backing that shows its image already; so where no indirect-argument buffer is built. */
  predicate SkipsNothing(run: seq<State>, acts: seq<Action>)
    requires IsRun(run, acts)
  {
    forall i :: 0 <= i < |acts| && acts[i].Ready? && !NeedsContent(acts[i].input) ==>
      Shows(run[i].backings[acts[i].id].memory, acts[i].c.image)
  }

  lemma {:induction false} RunGrows(run: seq<State>, acts: seq<Action>, i: nat)
    requires IsRun(run, acts) && NeverShrinks(run, acts) && i < |run|
    ensures run[i].h.images != [] && Grows(run[i].h, 0, |run[i].h.images| - 1)
  {
    if i > 0 {
      RunGrows(run, acts, i - 1);
      assert run[i] == Apply(run[i - 1], acts[i - 1]);
    }
  }

  lemma GrowingIsClean(s: State, a: Action)
    requires Inv(s) && Enabled(s, a) && Grows(s.h, 0, |s.h.images| - 1)
    requires a.Ready? && !NeedsContent(a.input) ==> Shows(s.backings[a.id].memory, a.c.image)
    ensures Clean(s, a)
  {
    if a.Ready? && NeedsContent(a.input) {
      var content := s.backings[a.id];
      if CatchesUp(a.input, a.isNew, content.epoch, content.image, a.c.image) && content.epoch <= a.c.sequence < |s.h.images| {
        GrowingLeavesNothing(s.h, s.first, a.c, Uploads(a.c, a.input, a.isNew, content), content.epoch);
      }
    }
  }

  // ---- exactly which runs publish only what they should ----

  predicate CleanUpTo(run: seq<State>, acts: seq<Action>, n: nat)
    requires IsRun(run, acts) && n <= |acts|
  {
    forall i :: 0 <= i < n ==> Clean(run[i], acts[i])
  }

  /** Every version of every state so far shows its image, the journal's at its sequence. */
  ghost predicate RightUpTo(run: seq<State>, n: nat)
    requires n < |run|
  {
    forall k, v :: 0 <= k <= n && v in run[k].versions ==> Intact(run[k].h, run[k].backings, v)
  }

  lemma {:induction false} CleanRunInv(run: seq<State>, acts: seq<Action>, n: nat)
    requires IsRun(run, acts) && n <= |acts| && CleanUpTo(run, acts, n)
    ensures Inv(run[n])
  {
    if n > 0 {
      CleanRunInv(run, acts, n - 1);
      StepInv(run[n - 1], acts[n - 1]);
    }
  }

  /** A build that is not clean publishes a version that does not show its image. */
  lemma UncleanIsWrong(s: State, a: Action) returns (v: Version)
    requires Inv(s) && Enabled(s, a) && !Clean(s, a)
    ensures v in Apply(s, a).versions && !Intact(Apply(s, a).h, Apply(s, a).backings, v)
  {
    BuildIsRight(s.h, s.first, a.c, a.input, a.isNew, s.backings[a.id]);
    v := Version(a.c.sequence, a.id, a.c.image);
  }

  /** Over every run, every version anyone held showed its image exactly when every build was clean. */
  lemma {:induction false} RightExactlyWhileClean(run: seq<State>, acts: seq<Action>, n: nat)
    requires IsRun(run, acts) && n <= |acts|
    ensures RightUpTo(run, n) <==> CleanUpTo(run, acts, n)
  {
    if n > 0 { RightExactlyWhileClean(run, acts, n - 1); }
    if CleanUpTo(run, acts, n) {
      CleanRunInv(run, acts, n);
    } else if CleanUpTo(run, acts, n - 1) {
      CleanRunInv(run, acts, n - 1);
      var v := UncleanIsWrong(run[n - 1], acts[n - 1]);
      assert v in run[n].versions;
    }
  }

  /** A run whose image never shrinks and that skips no content is clean. */
  lemma {:induction false} GrowingRunIsClean(run: seq<State>, acts: seq<Action>, n: nat)
    requires IsRun(run, acts) && NeverShrinks(run, acts) && SkipsNothing(run, acts) && n <= |acts|
    ensures CleanUpTo(run, acts, n) && Inv(run[n])
  {
    if n > 0 {
      GrowingRunIsClean(run, acts, n - 1);
      RunGrows(run, acts, n - 1);
      GrowingIsClean(run[n - 1], acts[n - 1]);
    }
    CleanRunInv(run, acts, n);
  }

  /** Over every run whose image never shrinks and that skips no content, a backing with an epoch and an image holds exactly the journal's image at that epoch. */
  lemma BackingsHoldTheirEpoch(run: seq<State>, acts: seq<Action>, i: nat, id: nat)
    requires IsRun(run, acts) && NeverShrinks(run, acts) && SkipsNothing(run, acts) && i < |run| && id in run[i].backings
    requires run[i].backings[id].epoch != 0 && run[i].backings[id].image.Some?
    ensures var content := run[i].backings[id];
      && content.epoch < |run[i].h.images| && |run[i].h.images[content.epoch]| <= |content.memory|
      && content.memory[..|run[i].h.images[content.epoch]|] == run[i].h.images[content.epoch]
  {
    GrowingRunIsClean(run, acts, i);
  }

  /** Every published version shows the journal's image at its sequence for as long as someone holds it. */
  lemma VersionsAreTheirImages(run: seq<State>, acts: seq<Action>, i: nat, v: Version)
    requires IsRun(run, acts) && NeverShrinks(run, acts) && SkipsNothing(run, acts) && i < |run| && v in run[i].versions
    ensures v.sequence < |run[i].h.images| && v.backing in run[i].backings
    ensures var image, memory := run[i].h.images[v.sequence], run[i].backings[v.backing].memory;
      |image| <= |memory| && memory[..|image|] == image
  {
    GrowingRunIsClean(run, acts, i);
    RightExactlyWhileClean(run, acts, i);
    assert Intact(run[i].h, run[i].backings, v);
  }

  /** On such a run no build fails for want of image, or reads past a page. */
  lemma CatchUpNeverRunsOff(run: seq<State>, acts: seq<Action>, i: nat, c: Captured, input: Input, id: nat, isNew: bool)
    requires IsRun(run, acts) && NeverShrinks(run, acts) && SkipsNothing(run, acts) && i < |run|
    requires c in run[i].captures && id in run[i].backings && InputOf(c, input)
    ensures Fits(Uploads(c, input, isNew, run[i].backings[id]), c.image.byteSize)
  {
    GrowingRunIsClean(run, acts, i);
    RunGrows(run, acts, i);
    GrowingFits(run[i].h, run[i].first, c, input, isNew, run[i].backings[id]);
  }

  // ---- what the calls leave ----

  predicate Publishes(a: Action, v: Version) {
    a.Ready? && v == Version(a.c.sequence, a.id, a.c.image)
  }

  /** By the first n steps a build published the version, and it was not released since. */
  predicate IsHeld(acts: seq<Action>, n: nat, v: Version)
    requires n <= |acts|
  {
    n != 0 && (Publishes(acts[n - 1], v) || (IsHeld(acts, n - 1, v) && acts[n - 1] != Release(v)))
  }

  lemma StepHeld(s: State, a: Action, v: Version)
    requires Enabled(s, a)
    ensures v in Apply(s, a).versions <==> Publishes(a, v) || (v in s.versions && a != Release(v))
  {}

  /** The versions are those published and not released. */
  lemma {:induction false} VersionsFromCalls(run: seq<State>, acts: seq<Action>, n: nat, v: Version)
    requires IsRun(run, acts) && n < |run|
    ensures v in run[n].versions <==> IsHeld(acts, n, v)
  {
    if n > 0 {
      VersionsFromCalls(run, acts, n - 1, v);
      StepHeld(run[n - 1], acts[n - 1], v);
    }
  }

  predicate Touches(a: Action, id: nat) {
    match a
    case NewBacking(k, _) => k == id
    case Ready(_, _, k, _) => k == id
    case Abandoned(k, _) => k == id
    case GpuWritten(_, k) => k == id
    case GpuWrites(k, _) => k == id
    case _ => false
  }

  lemma StepBacking(s: State, a: Action, id: nat)
    requires Enabled(s, a) && id in s.backings && !Touches(a, id)
    ensures id in Apply(s, a).backings && Apply(s, a).backings[id] == s.backings[id]
  {}

  /** A backing no step touches keeps what it holds. */
  lemma {:induction false} BackingStays(run: seq<State>, acts: seq<Action>, i: nat, j: nat, id: nat)
    requires IsRun(run, acts) && i <= j < |run| && id in run[i].backings && forall k :: i <= k < j ==> !Touches(acts[k], id)
    ensures id in run[j].backings && run[j].backings[id] == run[i].backings[id]
    decreases j
  {
    if i < j {
      BackingStays(run, acts, i, j - 1, id);
      StepBacking(run[j - 1], acts[j - 1], id);
    }
  }

  /** What the pool, a failed build or the GPU left in a backing is there until something touches it again. */
  lemma BytesLeft(run: seq<State>, acts: seq<Action>, i: nat, j: nat, id: nat, memory: seq<byte>)
    requires IsRun(run, acts) && i < j < |run| && (forall k :: i < k < j ==> !Touches(acts[k], id))
    requires acts[i] == NewBacking(id, memory) || acts[i] == Abandoned(id, memory) || acts[i] == GpuWrites(id, memory)
    ensures id in run[j].backings && run[j].backings[id].memory == memory && run[j].backings[id].image == None
    ensures !acts[i].GpuWrites? ==> run[j].backings[id].epoch == 0
  {
    assert run[i + 1] == Apply(run[i], acts[i]);
    BackingStays(run, acts, i + 1, j, id);
  }

  /** A capture may be built from at any time after it was taken. */
  lemma {:induction false} CapturesStay(run: seq<State>, acts: seq<Action>, i: nat, j: nat)
    requires IsRun(run, acts) && i < j < |run| && acts[i].Take?
    ensures acts[i].c in run[j].captures
    decreases j
  {
    if i + 1 < j { CapturesStay(run, acts, i, j - 1); }
    assert run[j] == Apply(run[j - 1], acts[j - 1]);
  }
}
