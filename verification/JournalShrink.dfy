/** Why catch-up needs an image that never shrinks: ReplaceImage cuts the image, a sparse AppendWrite grows it back to its old size,
    and the bytes in between are zero in the image but in no journal write (src/BufferJournal.cpp:47-60), while the size check of the
    catch-up passes (src/VersionedBufferBuild.cpp:136-137). And why it needs builds that upload what they publish. */
module JournalShrink {
  import opened Bytes
  import opened BufferImage
  import opened BackingMemory
  import opened JournalHistory
  import opened VersionedBufferReplay
  import opened VersionedBufferBuild
  import opened JournalRun

  const SIZE: nat := 2000

  function Ones(): seq<byte> {
    seq(SIZE, _ => 1 as byte)
  }

  /** The image grown back from one byte, with a write in its last. */
  function Regrown(): (r: seq<byte>)
    ensures |r| == SIZE && r[5] == 0
  {
    Overwrite(ZeroExtend([1 as byte], SIZE), SIZE - 1, [7 as byte])
  }

  function OnePage(bytes: seq<byte>): (image: Image)
    requires 0 < |bytes| <= PAGE_BYTES
    ensures Canonical(image) && Contents(image) == bytes
  {
    Image([Some(bytes)], |bytes|)
  }

  function InputFor(c: Captured): Input {
    Input(true, true, c.sequence, 1, c.image.byteSize, SIZE, false, false, false, None, c.writes, Some(c.image), c.base, [])
  }

  const CUT: BufferWrite := BufferWrite(2, 0, 1)
  const TAIL: BufferWrite := BufferWrite(3, SIZE - 1, 1)

  lemma Step(run: seq<State>, acts: seq<Action>, a: Action)
    requires IsRun(run, acts) && Enabled(run[|acts|], a)
    ensures IsRun(run + [Apply(run[|acts|], a)], acts + [a])
  {}

  lemma TwoDirty(a: BufferWrite, b: BufferWrite, held: nat)
    requires held < a.sequence && held < b.sequence && a.size != 0 && b.size != 0
    ensures Dirty([a, b], held) == [Range(a.offset, a.size), Range(b.offset, b.size)]
  {
    assert [a, b][..1] == [a] && [a][..0] == [];
    assert Dirty([a], held) == [Range(a.offset, a.size)];
  }

  lemma TwoSorted(first: Range, second: Range)
    requires first.offset <= second.offset
    ensures Sort([first, second]) == [first, second]
  {
    assert [first, second][..1] == [first] && [first][..0] == [];
    assert Insert([], first) == [first] && Sort([first]) == [first];
    assert [first][1..] == [] && Insert([], second) == [second] && Insert([first], second) == [first, second];
  }

  lemma TwoMerged(first: Range, second: Range)
    requires End(first) + MERGE_GAP < second.offset
    ensures Merge([first, second]) == [first, second] && Total([first, second]) == first.size + second.size
  {
    assert [first, second][..1] == [first] && [first][..0] == [];
    assert Merge([first]) == [first] && Total([first]) == first.size;
  }

  /** Two newer writes far apart, less than half the image together, are what a catch-up uploads. */
  lemma TwoPatched(a: BufferWrite, b: BufferWrite, held: nat, size: nat)
    requires held < a.sequence && held < b.sequence && a.size != 0 && b.size != 0
    requires a.offset + a.size + MERGE_GAP < b.offset && 2 * (a.size + b.size) < size
    ensures PatchRanges([a, b], held, size) == [Range(a.offset, a.size), Range(b.offset, b.size)]
  {
    TwoDirty(a, b, held);
    TwoSorted(Range(a.offset, a.size), Range(b.offset, b.size));
    TwoMerged(Range(a.offset, a.size), Range(b.offset, b.size));
  }

  function Started(): State {
    State(History([[], Ones()], [None, None]), 1, 0, {}, map[], {})
  }

  const FIRST: Captured := Captured(1, 0, [], OnePage(Ones()))
  const THIRD: Captured := Captured(3, 0, [CUT, TAIL], OnePage(Regrown()))

  /** The first image is captured, and a backing made. */
  lemma Prepare(held: seq<byte>) returns (run: seq<State>, acts: seq<Action>)
    ensures IsRun(run, acts) && forall a :: a in acts ==> !a.Journal?
    ensures run[|acts|] == Started().(captures := {FIRST}, backings := map[0 := Content(held, 0, None)])
  {
    run, acts := [Started()], [];
    Step(run, acts, Take(FIRST));
    run, acts := run + [Apply(run[|acts|], Take(FIRST))], acts + [Take(FIRST)];
    var made := NewBacking(0, held);
    Step(run, acts, made);
    run, acts := run + [Apply(run[|acts|], made)], acts + [made];
  }

  /** A version of the first image, whole, into an empty backing; then it is let go. */
  lemma Publish() returns (run: seq<State>, acts: seq<Action>)
    ensures IsRun(run, acts)
    ensures var s := run[|acts|];
      && s.h == Started().h && s.first == 1 && s.base == 0 && s.versions == {} && s.backings.Keys == {0}
      && s.backings[0].epoch == 1 && s.backings[0].image == Some(FIRST.image) && Shows(s.backings[0].memory, FIRST.image)
  {
    run, acts := Prepare([]);
    var s, input, content, v := run[|acts|], InputFor(FIRST), Content([], 0, None), Version(1, 0, FIRST.image);
    assert Uploads(FIRST, input, true, content) == [Range(0, SIZE)];
    WholeUpload(FIRST, input, true, content);
    var build := Action.Ready(FIRST, input, 0, true);
    Step(run, acts, build);
    run, acts := run + [Apply(s, build)], acts + [build];
    assert run[|acts|].versions == {v};
    Step(run, acts, Release(v));
    run, acts := run + [Apply(run[|acts|], Release(v))], acts + [Release(v)];
  }

  /** The image is cut to one byte and grown back with a write at its end. */
  lemma CutAndRegrow() returns (run: seq<State>, acts: seq<Action>)
    ensures IsRun(run, acts)
    ensures var s := run[|acts|];
      && s.h.images == [[], Ones(), [1], Regrown()] && THIRD in s.captures && s.versions == {} && s.backings.Keys == {0}
      && s.backings[0].epoch == 1 && s.backings[0].image == Some(FIRST.image) && Shows(s.backings[0].memory, FIRST.image)
  {
    run, acts := Publish();
    var cut := Action.Journal([1], CUT);
    Step(run, acts, cut);
    run, acts := run + [Apply(run[|acts|], cut)], acts + [cut];
    var regrow := Action.Journal(Regrown(), TAIL);
    Step(run, acts, regrow);
    run, acts := run + [Apply(run[|acts|], regrow)], acts + [regrow];
    assert run[|acts|].h == History([[], Ones(), [1], Regrown()], [None, None, Some(CUT), Some(TAIL)]);
    Step(run, acts, Take(THIRD));
    run, acts := run + [Apply(run[|acts|], Take(THIRD))], acts + [Take(THIRD)];
  }

  predicate Wrong(s: State, v: Version) {
    v.backing in s.backings && Canonical(v.image) && !Shows(s.backings[v.backing].memory, v.image)
  }

  /** The published version does not show its image: byte 5 is still the old one. */
  lemma ShrinkThenSparseRegrowthIsWrong() returns (run: seq<State>, acts: seq<Action>)
    ensures IsRun(run, acts)
    ensures exists v :: v in run[|acts|].versions && Wrong(run[|acts|], v)
  {
    run, acts := CutAndRegrow();
    var s, input := run[|acts|], InputFor(THIRD);
    var content, ranges := s.backings[0], [Range(0, 1), Range(SIZE - 1, 1)];
    TwoPatched(CUT, TAIL, 1, SIZE);
    assert Uploads(THIRD, input, false, content) == ranges;
    UploadedByte(content.memory, ranges, Contents(THIRD.image), 5);
    assert content.memory[..SIZE][5] == 1;
    var build, v := Action.Ready(THIRD, input, 0, false), Version(3, 0, THIRD.image);
    Step(run, acts, build);
    run, acts := run + [Apply(s, build)], acts + [build];
    assert run[|acts|].backings[0].memory[..SIZE][5] != Contents(THIRD.image)[5];
    assert v in run[|acts|].versions && Wrong(run[|acts|], v);
  }

  // ---- a skipped upload, caught up from ----

  /** The build's input when the buffer is one of indirect arguments. */
  function IndirectInput(c: Captured): Input {
    InputFor(c).(unorderedAccess := true, indirectArguments := true)
  }

  /** What a recycled buffer happened to hold. */
  function Leftover(): seq<byte> {
    seq(SIZE, _ => 9 as byte)
  }

  /** What its backing claims after a skipped build. */
  const CLAIMED: Content := Content(Leftover(), 1, Some(FIRST.image))

  function Poked(): (r: seq<byte>)
    ensures |r| == SIZE && r[5] == 1
  {
    Overwrite(Ones(), SIZE - 1, [7 as byte])
  }

  const POKE: BufferWrite := BufferWrite(2, SIZE - 1, 1)
  const SECOND: Captured := Captured(2, 0, [POKE], OnePage(Poked()))

  /** A backing with something in it, and a version published into it without an upload, since let go. */
  lemma Skip() returns (run: seq<State>, acts: seq<Action>)
    ensures IsRun(run, acts) && forall a :: a in acts ==> !a.Journal?
    ensures var s := run[|acts|];
      && s.h == Started().h && s.first == 1 && s.base == 0 && s.versions == {}
      && s.backings == map[0 := CLAIMED]
  {
    run, acts := Prepare(Leftover());
    var s, build, v := run[|acts|], Action.Ready(FIRST, IndirectInput(FIRST), 0, true), Version(1, 0, FIRST.image);
    assert Uploads(FIRST, IndirectInput(FIRST), true, s.backings[0]) == [];
    Step(run, acts, build);
    run, acts := run + [Apply(s, build)], acts + [build];
    assert run[|acts|].versions == {v};
    Step(run, acts, Release(v));
    run, acts := run + [Apply(run[|acts|], Release(v))], acts + [Release(v)];
  }

  /** Then one byte is written. */
  lemma SkipAndPoke() returns (run: seq<State>, acts: seq<Action>)
    ensures IsRun(run, acts) && NeverShrinks(run, acts)
    ensures var s := run[|acts|];
      && s.h.images == [[], Ones(), Poked()] && s.first == 1 && SECOND in s.captures && s.versions == {}
      && s.backings == map[0 := CLAIMED]
  {
    run, acts := Skip();
    var poke := Action.Journal(Poked(), POKE);
    Step(run, acts, poke);
    run, acts := run + [Apply(run[|acts|], poke)], acts + [poke];
    assert run[|acts|].h == History([[], Ones(), Poked()], [None, None, Some(POKE)]);
    Step(run, acts, Take(SECOND));
    run, acts := run + [Apply(run[|acts|], Take(SECOND))], acts + [Take(SECOND)];
  }

  lemma OneDirty(a: BufferWrite, held: nat)
    requires held < a.sequence && a.size != 0
    ensures Dirty([a], held) == [Range(a.offset, a.size)]
  {
    assert [a][..0] == [];
  }

  lemma OneSorted(r: Range)
    ensures Sort([r]) == [r] && Merge([r]) == [r] && Total([r]) == r.size
  {
    assert [r][..0] == [] && Insert([], r) == [r];
  }

  lemma OnePatched(a: BufferWrite, held: nat, size: nat)
    requires held < a.sequence && a.size != 0 && 2 * a.size < size
    ensures PatchRanges([a], held, size) == [Range(a.offset, a.size)]
  {
    OneDirty(a, held);
    OneSorted(Range(a.offset, a.size));
  }

  lemma ClaimIsUnsound(h: History)
    requires h.images == [[], Ones(), Poked()]
    ensures !Sound(h, 1, CLAIMED)
  {
    assert CLAIMED.memory[..SIZE][5] != Contents(FIRST.image)[5];
  }

  /** The later build uploads the one byte that was written, and leaves the others. */
  lemma LaterUploads()
    ensures CatchesUp(IndirectInput(SECOND), false, 1, CLAIMED.image, SECOND.image) && NeedsContent(IndirectInput(SECOND))
    ensures Uploads(SECOND, IndirectInput(SECOND), false, CLAIMED) == [Range(SIZE - 1, 1)]
    ensures !Shows(Built(SECOND, IndirectInput(SECOND), false, CLAIMED).memory, SECOND.image)
  {
    OnePatched(POKE, 1, SIZE);
    var ranges := Uploads(SECOND, IndirectInput(SECOND), false, CLAIMED);
    assert ranges == [Range(SIZE - 1, 1)];
    assert !Covers(ranges, 5) && At(CLAIMED.memory, 5) != Contents(SECOND.image)[5];
    RightByteByByte(SECOND, IndirectInput(SECOND), false, CLAIMED);
  }

  /** The build catches up from a backing that does not hold what it claims, uploads only `ranges`, and its version does not show its
      image. */
  ghost predicate CatchesUpWrongly(s: State, build: Action, e: State, ranges: seq<Range>) {
    && build.Ready? && build.id in s.backings
    && var content := s.backings[build.id];
       && !Sound(s.h, s.first, content) && NeedsContent(build.input)
       && CatchesUp(build.input, build.isNew, content.epoch, content.image, build.c.image)
       && Uploads(build.c, build.input, build.isNew, content) == ranges
       && Version(build.c.sequence, build.id, build.c.image) in e.versions
       && Wrong(e, Version(build.c.sequence, build.id, build.c.image))
  }

  lemma BuildsWrongly(s: State, build: Action)
    requires build.Ready? && Enabled(s, build)
    requires !Shows(Built(build.c, build.input, build.isNew, s.backings[build.id]).memory, build.c.image)
    ensures Version(build.c.sequence, build.id, build.c.image) in Apply(s, build).versions
    ensures Wrong(Apply(s, build), Version(build.c.sequence, build.id, build.c.image))
  {}

  lemma LaterBuild(s: State) returns (build: Action)
    requires s.h.images == [[], Ones(), Poked()] && s.first == 1 && SECOND in s.captures && s.versions == {} && s.backings == map[0 := CLAIMED]
    ensures Enabled(s, build) && CatchesUpWrongly(s, build, Apply(s, build), [Range(SIZE - 1, 1)])
  {
    build := Action.Ready(SECOND, IndirectInput(SECOND), 0, false);
    ClaimIsUnsound(s.h);
    LaterUploads();
    BuildsWrongly(s, build);
  }

  /** Why runs must skip no content: the later build catches up from the epoch the backing claims, uploads the one byte that was written,
      and publishes a version whose other bytes were never there; and the image never shrank. */
  lemma SkippedBuildIsWrong() returns (run: seq<State>, acts: seq<Action>)
    ensures IsRun(run, acts) && NeverShrinks(run, acts) && acts != []
    ensures CatchesUpWrongly(run[|acts| - 1], acts[|acts| - 1], run[|acts|], [Range(SIZE - 1, 1)])
  {
    run, acts := SkipAndPoke();
    var s := run[|acts|];
    var build := LaterBuild(s);
    Step(run, acts, build);
    run, acts := run + [Apply(s, build)], acts + [build];
  }
}
