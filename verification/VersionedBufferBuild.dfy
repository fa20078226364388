/** A versioned buffer's build by journal catch-up (src/VersionedBufferBuild.cpp, Build): the leased backing, which still holds an
    older version's bytes, is brought up to the version's image with merged dirty ranges, or written whole.

    Uploads land at once and in queue order. What the host decides while the build runs (stop requests, retirement, refused uploads)
    is the `Environment`, asked in the order the build asks. */
module VersionedBufferBuild {
  import opened Bytes
  import opened BufferImage
  import opened BackingMemory
  import opened JournalHistory
  import opened VersionedBufferReplay

  const MERGE_GAP: nat := 256
  const MAX_RANGES: nat := 128

  datatype Range = Range(offset: nat, size: nat)

  function End(r: Range): nat {
    r.offset + r.size
  }

  predicate In(r: Range, i: int) {
    r.offset <= i < End(r)
  }

  predicate Covers(ranges: seq<Range>, i: int) {
    exists r :: r in ranges && In(r, i)
  }

  /** Byte i lies in a range, or at most a merge gap past its end. */
  predicate Near(ranges: seq<Range>, i: int) {
    exists r :: r in ranges && r.offset <= i < End(r) + MERGE_GAP
  }

  function Total(ranges: seq<Range>): nat {
    if ranges == [] then 0 else Total(ranges[..|ranges| - 1]) + ranges[|ranges| - 1].size
  }

  predicate ByOffset(ranges: seq<Range>) {
    forall j, k :: 0 <= j < k < |ranges| ==> ranges[j].offset <= ranges[k].offset
  }

  // ---- the dirty ranges ----

  /** A write newer than what is held covers byte i. */
  predicate Rewritten(writes: seq<BufferWrite>, held: nat, i: int) {
    exists w :: w in writes && held < w.sequence && Inside(w, i)
  }

  /** The writes newer than what is held, as ranges. */
  function Dirty(writes: seq<BufferWrite>, held: nat): seq<Range> {
    if writes == [] then []
    else
      var w := writes[|writes| - 1];
      Dirty(writes[..|writes| - 1], held) + if w.sequence <= held || w.size == 0 then [] else [Range(w.offset, w.size)]
  }

  method DirtyRanges(writes: seq<BufferWrite>, held: nat) returns (dirty: seq<Range>)
    ensures dirty == Dirty(writes, held)
  {
    dirty := [];
    for k := 0 to |writes|
      invariant dirty == Dirty(writes[..k], held)
    {
      assert writes[..k + 1][..k] == writes[..k];
      var w := writes[k];
      if w.sequence <= held || w.size == 0 { continue; }
      dirty := dirty + [Range(w.offset, w.size)];
    }
    assert writes[..|writes|] == writes;
  }

  lemma {:induction false} DirtyIs(writes: seq<BufferWrite>, held: nat, r: Range)
    ensures r in Dirty(writes, held) <==> exists w :: w in writes && held < w.sequence && w.size != 0 && r == Range(w.offset, w.size)
  {
    if writes != [] {
      var w := writes[|writes| - 1];
      DirtyIs(writes[..|writes| - 1], held, r);
      assert forall v :: v in writes <==> v in writes[..|writes| - 1] || v == w;
    }
  }

  /** `r` after the ranges of a sorted list that do not start past it. */
  function Insert(sorted: seq<Range>, r: Range): (s: seq<Range>)
    requires ByOffset(sorted)
    ensures ByOffset(s) && multiset(s) == multiset(sorted) + multiset{r}
  {
    if sorted == [] || r.offset < sorted[0].offset then
      assert multiset([r] + sorted) == multiset{r} + multiset(sorted);
      [r] + sorted
    else
      var rest := Insert(sorted[1..], r);
      assert sorted == [sorted[0]] + sorted[1..];
      assert multiset([sorted[0]] + rest) == multiset{sorted[0]} + multiset(rest);
      InsertFirst(sorted, rest, r);
      [sorted[0]] + rest
  }

  lemma InsertFirst(sorted: seq<Range>, rest: seq<Range>, r: Range)
    requires sorted != [] && ByOffset(sorted) && sorted[0].offset <= r.offset
    requires ByOffset(rest) && multiset(rest) == multiset(sorted[1..]) + multiset{r}
    ensures ByOffset([sorted[0]] + rest)
  {
    forall k | 0 <= k < |rest| ensures sorted[0].offset <= rest[k].offset {
      assert rest[k] in multiset(rest);
      if rest[k] != r {
        assert rest[k] in multiset(sorted[1..]);
        var j :| 0 <= j < |sorted[1..]| && sorted[1..][j] == rest[k];
        assert sorted[j + 1] == rest[k];
      }
    }
  }

  /** Sorted by offset. Callers rely on no order among ranges at one offset. */
  function Sort(ranges: seq<Range>): (sorted: seq<Range>)
    ensures ByOffset(sorted) && multiset(sorted) == multiset(ranges)
  {
    if ranges == [] then []
    else
      assert ranges == ranges[..|ranges| - 1] + [ranges[|ranges| - 1]];
      Insert(Sort(ranges[..|ranges| - 1]), ranges[|ranges| - 1])
  }

  // ---- merging ----

  predicate Joins(last: Range, r: Range) {
    r.offset <= End(last) + MERGE_GAP
  }

  /** A merged range extended over the next one. */
  function Hull(last: Range, r: Range): Range {
    Range(last.offset, Max(Max(End(last), End(r)), last.offset) - last.offset)
  }

  /** The last merged range extended, or a new one. */
  function MergeStep(merged: seq<Range>, r: Range): seq<Range> {
    if merged != [] && Joins(merged[|merged| - 1], r) then merged[..|merged| - 1] + [Hull(merged[|merged| - 1], r)]
    else merged + [r]
  }

  function Merge(ranges: seq<Range>): seq<Range> {
    if ranges == [] then [] else MergeStep(Merge(ranges[..|ranges| - 1]), ranges[|ranges| - 1])
  }

  method MergeOne(merged: seq<Range>, range: Range) returns (next: seq<Range>)
    ensures next == MergeStep(merged, range)
  {
    if merged != [] && range.offset <= End(merged[|merged| - 1]) + MERGE_GAP {
      var last := merged[|merged| - 1];
      var end := Max(End(last), End(range));
      next := merged[..|merged| - 1] + [Range(last.offset, end - last.offset)];
    } else {
      next := merged + [range];
    }
  }

  method MergeRanges(dirty: seq<Range>) returns (merged: seq<Range>)
    ensures merged == Merge(dirty)
  {
    merged := [];
    for k := 0 to |dirty|
      invariant merged == Merge(dirty[..k])
    {
      assert dirty[..k + 1][..k] == dirty[..k];
      merged := MergeOne(merged, dirty[k]);
    }
    assert dirty[..|dirty|] == dirty;
  }

  lemma TotalPush(ranges: seq<Range>, r: Range)
    ensures Total(ranges + [r]) == Total(ranges) + r.size
  {
    assert (ranges + [r])[..|ranges|] == ranges;
  }

  lemma TotalLast(ranges: seq<Range>)
    requires ranges != []
    ensures Total(ranges) == Total(ranges[..|ranges| - 1]) + ranges[|ranges| - 1].size
  {}

  lemma StepSize(merged: seq<Range>, r: Range)
    requires merged != [] ==> merged[|merged| - 1].offset <= r.offset
    ensures |MergeStep(merged, r)| <= |merged| + 1 && Total(MergeStep(merged, r)) <= Total(merged) + r.size + MERGE_GAP
    ensures MergeStep(merged, r) != [] && MergeStep(merged, r)[|MergeStep(merged, r)| - 1].offset <= r.offset
  {
    if merged != [] && Joins(merged[|merged| - 1], r) {
      TotalPush(merged[..|merged| - 1], Hull(merged[|merged| - 1], r));
      TotalLast(merged);
    } else {
      TotalPush(merged, r);
    }
  }

  /** Merging never adds ranges, and adds less than a gap of bytes for each. */
  lemma {:induction false} MergeSize(ranges: seq<Range>)
    requires ByOffset(ranges)
    ensures |Merge(ranges)| <= |ranges| && Total(Merge(ranges)) <= Total(ranges) + MERGE_GAP * |ranges|
    ensures ranges != [] ==> Merge(ranges) != [] && Merge(ranges)[|Merge(ranges)| - 1].offset <= ranges[|ranges| - 1].offset
  {
    if ranges != [] {
      var before := ranges[..|ranges| - 1];
      MergeSize(before);
      StepSize(Merge(before), ranges[|ranges| - 1]);
    }
  }

  ghost predicate Holds(merged: seq<Range>, r: Range) {
    exists m :: m in merged && m.offset <= r.offset && End(r) <= End(m)
  }

  /** Each dirty range lies whole in a merged one. */
  lemma {:induction false} MergeHolds(ranges: seq<Range>, r: Range)
    requires ByOffset(ranges) && r in ranges
    ensures Holds(Merge(ranges), r)
  {
    var before, last := ranges[..|ranges| - 1], ranges[|ranges| - 1];
    var merged, all := Merge(before), Merge(ranges);
    MergeSize(before);
    assert all[|all| - 1] in all;
    if r != last {
      assert r in before;
      MergeHolds(before, r);
      var m :| m in merged && m.offset <= r.offset && End(r) <= End(m);
      if m in all { assert Holds(all, r); } else { assert m == merged[|merged| - 1] && all[|all| - 1] == Hull(m, last); }
    }
  }

  predicate EndsOne(ranges: seq<Range>, end: nat) {
    exists r :: r in ranges && End(r) == end
  }

  /** What covers and ends among fewer ranges does among more. */
  lemma NearMore(fewer: seq<Range>, more: seq<Range>, i: int, end: nat)
    requires forall r :: r in fewer ==> r in more
    ensures Near(fewer, i) ==> Near(more, i)
    ensures EndsOne(fewer, end) ==> EndsOne(more, end)
  {}

  /** A hull reaches from a range that ends one to the next, at most a gap away. */
  lemma HullNear(ranges: seq<Range>, former: Range, last: Range, i: int)
    requires EndsOne(ranges, End(former)) && last in ranges && Joins(former, last) && In(Hull(former, last), i) && End(former) <= i
    ensures Near(ranges, i)
  {
    var d :| d in ranges && End(d) == End(former);
    assert i < last.offset ==> d.offset <= i < End(d) + MERGE_GAP;
  }

  /** A merged range ends where a dirty one does, and no byte of it lies more than a gap past one. */
  lemma {:induction false} MergeNear(ranges: seq<Range>, m: Range)
    requires ByOffset(ranges) && m in Merge(ranges)
    ensures EndsOne(ranges, End(m))
    ensures forall i :: In(m, i) ==> Near(ranges, i)
  {
    var before, last := ranges[..|ranges| - 1], ranges[|ranges| - 1];
    var merged := Merge(before);
    assert last in ranges;
    if m in merged {
      MergeNear(before, m);
      forall i | In(m, i) ensures Near(ranges, i) { NearMore(before, ranges, i, 0); }
      NearMore(before, ranges, 0, End(m));
    } else if m != last {
      var former := merged[|merged| - 1];
      MergeNear(before, former);
      NearMore(before, ranges, 0, End(former));
      forall i | In(m, i) ensures Near(ranges, i) {
        if In(former, i) { NearMore(before, ranges, i, 0); } else { HullNear(ranges, former, last, i); }
      }
    }
  }

  /** Merged ranges are in order, more than a gap apart. */
  lemma {:induction false} MergeGaps(ranges: seq<Range>, k: nat)
    requires ByOffset(ranges) && k + 1 < |Merge(ranges)|
    ensures End(Merge(ranges)[k]) + MERGE_GAP < Merge(ranges)[k + 1].offset
  {
    var before := ranges[..|ranges| - 1];
    if k + 1 < |Merge(before)| { MergeGaps(before, k); }
  }

  // ---- uploads ----

  /** What the page loop gathers: the range's segments, a range the pages do not cover, or a read past a short last page. */
  datatype Gathered = Segments(segments: seq<seq<byte>>) | Uncovered | PastPage

  /** No page is over long. Some may be short or left out; an image the module makes has neither (Canonical). */
  predicate Paged(image: Image) {
    forall k :: 0 <= k < |image.pages| && image.pages[k].Some? ==> |image.pages[k].value| <= PAGE_BYTES
  }

  /** Offset i is in a page. */
  predicate HasByte(image: Image, i: nat) {
    && i / PAGE_BYTES < |image.pages| && image.pages[i / PAGE_BYTES].Some?
    && i % PAGE_BYTES < |image.pages[i / PAGE_BYTES].value|
  }

  /** What the pages hold, each at its place. */
  function Readout(image: Image): (r: seq<byte>)
    ensures |r| == |image.pages| * PAGE_BYTES
    ensures forall i :: 0 <= i < |r| && HasByte(image, i) ==> r[i] == image.pages[i / PAGE_BYTES].value[i % PAGE_BYTES]
  {
    seq(|image.pages| * PAGE_BYTES, i requires 0 <= i => if HasByte(image, i) then image.pages[i / PAGE_BYTES].value[i % PAGE_BYTES] else 0)
  }

  predicate Covered(image: Image, r: Range) {
    forall i :: r.offset <= i < End(r) ==> HasByte(image, i)
  }

  /** A piece inside one page is that piece of the readout. */
  lemma PagePiece(image: Image, offset: nat, size: nat)
    requires Paged(image) && offset / PAGE_BYTES < |image.pages| && image.pages[offset / PAGE_BYTES].Some?
    requires offset % PAGE_BYTES + size <= |image.pages[offset / PAGE_BYTES].value|
    ensures Covered(image, Range(offset, size)) && offset + size <= |Readout(image)|
    ensures image.pages[offset / PAGE_BYTES].value[offset % PAGE_BYTES..offset % PAGE_BYTES + size] == Readout(image)[offset..offset + size]
  {
    var k, p := offset / PAGE_BYTES, offset % PAGE_BYTES;
    assert offset == k * PAGE_BYTES + p;
    var piece := image.pages[k].value[p..p + size];
    forall i | offset <= i < offset + size ensures HasByte(image, i) && i < |Readout(image)| && Readout(image)[i] == piece[i - offset] {
      assert i / PAGE_BYTES == k && i % PAGE_BYTES == p + (i - offset);
    }
  }

  lemma GatherStep(bytes: seq<byte>, from: nat, offset: nat, size: nat, segments: seq<seq<byte>>, piece: seq<byte>)
    requires from <= offset && offset + size <= |bytes|
    requires Flatten(segments) == bytes[from..offset] && piece == bytes[offset..offset + size]
    ensures Flatten(segments + [piece]) == bytes[from..offset + size]
  {
    FlattenPush(segments, piece);
  }

  /** Of a canonical image the pages hold its contents, and nothing past them. */
  lemma CanonicalReadout(image: Image, r: Range)
    requires Canonical(image)
    ensures Paged(image) && image.byteSize <= |Readout(image)| && Readout(image)[..image.byteSize] == Contents(image)
    ensures Covered(image, r) <==> r.size == 0 || End(r) <= image.byteSize
  {
    forall i: nat ensures HasByte(image, i) <==> i < image.byteSize {}
    if r.size != 0 { assert Covered(image, r) ==> HasByte(image, End(r) - 1); }
  }

  /** The first offset of the range no page has. */
  predicate FirstGap(image: Image, range: Range, o: int) {
    range.offset <= o < End(range) && !HasByte(image, o) && Covered(image, Range(range.offset, o - range.offset))
  }

  /** A page ends before it: the source's difference wraps. */
  predicate PastItsPage(image: Image, o: int) {
    && 0 <= o && o / PAGE_BYTES < |image.pages| && image.pages[o / PAGE_BYTES].Some?
    && |image.pages[o / PAGE_BYTES].value| < o % PAGE_BYTES
  }

  /** The page loop succeeds exactly on the ranges the pages cover, and then gathers their bytes. */
  method GatherSegments(image: Image, range: Range) returns (r: Gathered)
    requires Paged(image)
    ensures r.Segments? <==> Covered(image, range)
    ensures r.Segments? && range.size != 0 ==> End(range) <= |Readout(image)| && Flatten(r.segments) == Readout(image)[range.offset..End(range)]
    ensures r.Segments? ==> |Flatten(r.segments)| == range.size
    ensures !r.Segments? ==> exists o :: FirstGap(image, range, o) && (r.PastPage? <==> PastItsPage(image, o))
  {
    var remaining: nat, offset: nat := range.size, range.offset;
    var segments: seq<seq<byte>> := [];
    while remaining != 0
      invariant offset + remaining == End(range) && range.offset <= offset
      invariant Covered(image, Range(range.offset, offset - range.offset))
      invariant range.offset == offset ==> segments == []
      invariant range.offset < offset ==> offset <= |Readout(image)| && Flatten(segments) == Readout(image)[range.offset..offset]
    {
      var pageIndex := offset / PAGE_BYTES;
      var pageOffset := offset % PAGE_BYTES;
      if pageIndex >= |image.pages| || image.pages[pageIndex].None? { break; }
      var page := image.pages[pageIndex].value;
      if |page| < pageOffset {
        assert FirstGap(image, range, offset);
        return PastPage;
      }
      var size := Min(remaining, |page| - pageOffset);
      if size == 0 { break; }
      PagePiece(image, offset, size);
      GatherStep(Readout(image), range.offset, offset, size, segments, page[pageOffset..pageOffset + size]);
      segments := segments + [page[pageOffset..pageOffset + size]];
      offset, remaining := offset + size, remaining - size;
    }
    if remaining != 0 {
      assert FirstGap(image, range, offset);
      return Uncovered;
    }
    r := Segments(segments);
  }

  // ---- what a build uploads ----

  /** Too many ranges, or more than half the image: one whole upload instead. */
  function Reduce(ranges: seq<Range>, size: nat): seq<Range> {
    if |ranges| > MAX_RANGES || Total(ranges) * 2 > size then [Range(0, size)] else ranges
  }

  function PatchRanges(writes: seq<BufferWrite>, held: nat, size: nat): seq<Range> {
    Reduce(Merge(Sort(Dirty(writes, held))), size)
  }

  predicate Fits(ranges: seq<Range>, size: nat) {
    forall r :: r in ranges ==> r.size == 0 || End(r) <= size
  }

  /** The range's bytes of the image (an empty range has none, wherever it lies). */
  function Slice(image: seq<byte>, r: Range): seq<byte> {
    if End(r) <= |image| then image[r.offset..End(r)] else []
  }

  /** Memory after the ranges' uploads, in order. */
  function UploadAll(memory: seq<byte>, ranges: seq<Range>, image: seq<byte>): seq<byte> {
    if ranges == [] then memory
    else
      var r := ranges[|ranges| - 1];
      Write(UploadAll(memory, ranges[..|ranges| - 1], image), r.offset, Slice(image, r))
  }

  /** Each byte is the image's where a range covers it, and untouched elsewhere. */
  lemma {:induction false} UploadedByte(memory: seq<byte>, ranges: seq<Range>, image: seq<byte>, i: nat)
    requires Fits(ranges, |image|)
    ensures At(UploadAll(memory, ranges, image), i) == if Covers(ranges, i) then image[i] else At(memory, i)
    ensures |memory| <= |UploadAll(memory, ranges, image)| && (Covers(ranges, i) ==> i < |UploadAll(memory, ranges, image)|)
  {
    if ranges != [] {
      var before, r := ranges[..|ranges| - 1], ranges[|ranges| - 1];
      UploadedByte(memory, before, image, i);
      assert r in ranges && forall q :: q in ranges <==> q in before || q == r;
      assert Covers(ranges, i) <==> Covers(before, i) || In(r, i);
    }
  }

  lemma DirtyIsMerged(writes: seq<BufferWrite>, held: nat, w: BufferWrite)
    requires w in writes && held < w.sequence && w.size != 0
    ensures Holds(Merge(Sort(Dirty(writes, held))), Range(w.offset, w.size))
  {
    var r, dirty := Range(w.offset, w.size), Dirty(writes, held);
    DirtyIs(writes, held, r);
    assert r in multiset(dirty) && r in Sort(dirty);
    MergeHolds(Sort(dirty), r);
  }

  /** Every byte a newer write covers is in a merged range, hence uploaded. */
  lemma RewrittenIsUploaded(writes: seq<BufferWrite>, held: nat, size: nat, i: nat)
    requires Rewritten(writes, held, i) && i < size
    ensures Covers(PatchRanges(writes, held, size), i)
  {
    var w :| w in writes && held < w.sequence && Inside(w, i);
    DirtyIsMerged(writes, held, w);
    var m :| m in Merge(Sort(Dirty(writes, held))) && m.offset <= w.offset && w.offset + w.size <= End(m);
    assert In(m, i) && In(Range(0, size), i) && Range(0, size) in [Range(0, size)];
  }

  /** A patch uploads no byte more than a merge gap past every newer write. */
  lemma OnlyNearIsUploaded(writes: seq<BufferWrite>, held: nat, i: nat)
    requires Covers(Merge(Sort(Dirty(writes, held))), i)
    ensures exists w :: w in writes && held < w.sequence && w.offset <= i < w.offset + w.size + MERGE_GAP
  {
    var dirty := Dirty(writes, held);
    var m :| m in Merge(Sort(dirty)) && In(m, i);
    MergeNear(Sort(dirty), m);
    var r :| r in Sort(dirty) && r.offset <= i < End(r) + MERGE_GAP;
    assert r in multiset(dirty);
    DirtyIs(writes, held, r);
  }

  // ---- the build ----

  datatype Reason = NoInput | NoPool | Exhausted | TooSmall | NotReplayable | NoBuffer | ImageTooShort | Retired | Refused

  datatype Outcome =
    | Ready(writeSequence: nat, image: Option<Image>)
    | Suspended
    | Failed(reason: Reason)
    | Cancelled
    | ReadPastPage   // the source's unsigned difference wraps here: the read leaves its page

  /** The backing catches up from the journal. */
  predicate CatchesUp(input: Input, isNew: bool, held: nat, heldImage: Option<Image>, image: Image) {
    && !isNew && input.image.Some? && held != 0 && input.journalBaseSequence <= held <= input.writeSequence
    && heldImage.Some? && heldImage.value.byteSize == image.byteSize
  }

  predicate NeedsContent(input: Input) {
    !input.gpuWritten && !(input.unorderedAccess && input.indirectArguments && input.bytes == [] && input.writes == [])
  }

  /** The ranges a build uploads. */
  function Chosen(input: Input, isNew: bool, held: nat, heldImage: Option<Image>, image: Image): seq<Range> {
    if !NeedsContent(input) || image.byteSize == 0 then []
    else if CatchesUp(input, isNew, held, heldImage, image) then PatchRanges(input.writes, held, image.byteSize)
    else [Range(0, image.byteSize)]
  }

  predicate AllCovered(image: Image, ranges: seq<Range>) {
    forall r :: r in ranges ==> Covered(image, r)
  }

  /** Range k is uploaded: the pages cover it, the backing is not retired, and the host accepts. */
  predicate UploadGoes(image: Image, ranges: seq<Range>, env: Environment, k: int)
    requires 0 <= k < |ranges|
  {
    Covered(image, ranges[k]) && !env.retired(k) && env.accepts(k)
  }

  /** The first n ranges are. */
  predicate UploadsGo(image: Image, ranges: seq<Range>, env: Environment, n: nat)
    requires n <= |ranges|
  {
    n == 0 || (UploadsGo(image, ranges, env, n - 1) && UploadGoes(image, ranges, env, n - 1))
  }

  lemma {:induction false} UploadsGoEach(image: Image, ranges: seq<Range>, env: Environment, n: nat)
    requires n <= |ranges|
    ensures UploadsGo(image, ranges, env, n) <==> forall k :: 0 <= k < n ==> UploadGoes(image, ranges, env, k)
  {
    if n > 0 { UploadsGoEach(image, ranges, env, n - 1); }
  }

  /** The uploads stop at range k, and why. */
  ghost predicate StopsAt(image: Image, ranges: seq<Range>, env: Environment, k: int, failure: Outcome) {
    && 0 <= k < |ranges| && UploadsGo(image, ranges, env, k)
    && match failure
       case ReadPastPage => exists o :: FirstGap(image, ranges[k], o) && PastItsPage(image, o)
       case Failed(ImageTooShort) => exists o :: FirstGap(image, ranges[k], o) && !PastItsPage(image, o)
       case Failed(Retired) => Covered(image, ranges[k]) && env.retired(k)
       case Failed(Refused) => Covered(image, ranges[k]) && !env.retired(k) && !env.accepts(k)
       case _ => false
  }

  /** And what has landed by then. */
  ghost predicate Stopped(image: Image, ranges: seq<Range>, env: Environment, failure: Outcome, former: seq<byte>, memory: seq<byte>) {
    exists k :: StopsAt(image, ranges, env, k, failure) && memory == UploadAll(former, ranges[..k], Readout(image))
  }

  lemma {:induction false} NoFurther(image: Image, ranges: seq<Range>, env: Environment, k: nat, n: nat)
    requires k < n <= |ranges| && !UploadGoes(image, ranges, env, k)
    ensures !UploadsGo(image, ranges, env, n)
    decreases n
  {
    if k + 1 < n { NoFurther(image, ranges, env, k, n - 1); }
  }

  lemma StopsThere(image: Image, ranges: seq<Range>, env: Environment, k: nat, failure: Outcome)
    requires StopsAt(image, ranges, env, k, failure)
    ensures !UploadGoes(image, ranges, env, k)
  {}

  lemma SliceOf(bytes: seq<byte>, range: Range, segments: seq<seq<byte>>)
    requires |Flatten(segments)| == range.size
    requires range.size != 0 ==> End(range) <= |bytes| && Flatten(segments) == bytes[range.offset..End(range)]
    ensures Flatten(segments) == Slice(bytes, range)
  {}

  method UploadRange(backing: Backing, image: Image, ranges: seq<Range>, env: Environment, k: nat, ghost bytes: seq<byte>)
      returns (failure: Option<Outcome>)
    requires Paged(image) && bytes == Readout(image) && k < |ranges| && UploadsGo(image, ranges, env, k)
    modifies backing`memory
    ensures failure.None? <==> UploadGoes(image, ranges, env, k)
    ensures backing.memory ==
      if failure.None? then Write(old(backing.memory), ranges[k].offset, Slice(bytes, ranges[k])) else old(backing.memory)
    ensures failure.Some? ==> StopsAt(image, ranges, env, k, failure.value)
  {
    var range := ranges[k];
    var gathered := GatherSegments(image, range);
    if gathered.PastPage? { return Some(ReadPastPage); }
    if gathered.Uncovered? { return Some(Failed(ImageTooShort)); }
    if env.retired(k) { return Some(Failed(Retired)); }
    if !env.accepts(k) { return Some(Failed(Refused)); }
    SliceOf(Readout(image), range, gathered.segments);
    backing.Upload(gathered.segments, range.size, range.offset);
    failure := None;
  }

  lemma OneMoreUpload(former: seq<byte>, ranges: seq<Range>, k: nat, bytes: seq<byte>)
    requires k < |ranges|
    ensures UploadAll(former, ranges[..k + 1], bytes) == Write(UploadAll(former, ranges[..k], bytes), ranges[k].offset, Slice(bytes, ranges[k]))
  {
    assert ranges[..k + 1][..k] == ranges[..k];
  }

  /** Range k on top of those before it. */
  method UploadNext(backing: Backing, image: Image, ranges: seq<Range>, env: Environment, k: nat, ghost bytes: seq<byte>,
                    ghost former: seq<byte>)
      returns (failure: Option<Outcome>)
    requires Paged(image) && bytes == Readout(image) && k < |ranges| && UploadsGo(image, ranges, env, k)
    requires backing.memory == UploadAll(former, ranges[..k], bytes)
    modifies backing`memory
    ensures failure.None? ==> UploadsGo(image, ranges, env, k + 1) && backing.memory == UploadAll(former, ranges[..k + 1], bytes)
    ensures failure.Some? ==> backing.memory == old(backing.memory) && StopsAt(image, ranges, env, k, failure.value)
  {
    OneMoreUpload(former, ranges, k, bytes);
    failure := UploadRange(backing, image, ranges, env, k, bytes);
  }

  /** The upload loop: n ranges landed. */
  method UploadUntil(backing: Backing, image: Image, ranges: seq<Range>, env: Environment, ghost bytes: seq<byte>)
      returns (failure: Option<Outcome>, ghost n: nat)
    requires Paged(image) && bytes == Readout(image)
    modifies backing`memory
    ensures n <= |ranges| && UploadsGo(image, ranges, env, n) && backing.memory == UploadAll(old(backing.memory), ranges[..n], bytes)
    ensures if failure.Some? then n < |ranges| && StopsAt(image, ranges, env, n, failure.value) else n == |ranges|
  {
    ghost var former := backing.memory;
    for k := 0 to |ranges|
      invariant UploadsGo(image, ranges, env, k) && backing.memory == UploadAll(former, ranges[..k], bytes)
    {
      failure := UploadNext(backing, image, ranges, env, k, bytes, former);
      if failure.Some? { return failure, k; }
    }
    failure, n := None, |ranges|;
  }

  lemma AllGoCovered(image: Image, ranges: seq<Range>, env: Environment)
    requires UploadsGo(image, ranges, env, |ranges|)
    ensures AllCovered(image, ranges)
  {
    UploadsGoEach(image, ranges, env, |ranges|);
    forall r | r in ranges ensures Covered(image, r) {
      var k :| 0 <= k < |ranges| && ranges[k] == r;
      assert UploadGoes(image, ranges, env, k);
    }
  }

  /** Uploads the chosen ranges; it stops at the first one that fails. */
  method UploadRanges(backing: Backing, image: Image, ranges: seq<Range>, env: Environment) returns (failure: Option<Outcome>)
    requires Paged(image)
    modifies backing`memory
    ensures failure.None? <==> UploadsGo(image, ranges, env, |ranges|)
    ensures failure.None? ==> Uploaded(old(backing.memory), backing.memory, image, ranges)
    ensures failure.Some? ==> Stopped(image, ranges, env, failure.value, old(backing.memory), backing.memory)
  {
    ghost var n: nat;
    failure, n := UploadUntil(backing, image, ranges, env, Readout(image));
    if failure.Some? {
      StopsThere(image, ranges, env, n, failure.value);
      NoFurther(image, ranges, env, n, |ranges|);
    } else {
      assert ranges[..|ranges|] == ranges;
      AllGoCovered(image, ranges, env);
    }
  }

  /** Picks the ranges, as the build does. */
  method ChooseRanges(input: Input, isNew: bool, backing: Backing, image: Image) returns (ranges: seq<Range>)
    requires NeedsContent(input) && image.byteSize != 0
    ensures ranges == Chosen(input, isNew, backing.contentEpoch, backing.image, image)
  {
    var held := backing.contentEpoch;
    if !isNew && input.image.Some? && held != 0 && held >= input.journalBaseSequence && held <= input.writeSequence
       && backing.image.Some? && backing.image.value.byteSize == image.byteSize {
      var dirty := DirtyRanges(input.writes, held);
      dirty := Sort(dirty);
      ranges := MergeRanges(dirty);
    } else {
      ranges := [Range(0, image.byteSize)];
    }
    if |ranges| > MAX_RANGES || Total(ranges) * 2 > image.byteSize { ranges := [Range(0, image.byteSize)]; }
  }

  /** The image the version gets: the input's own, or its replay. */
  ghost predicate ImageFor(input: Input, image: Image) {
    if input.image.Some? then image == input.image.value
    else Replayable(input) && Canonical(image) && Contents(image) == Replayed(input)
  }

  /** The pages cover the ranges, and their bytes were uploaded. */
  predicate Uploaded(former: seq<byte>, memory: seq<byte>, image: Image, ranges: seq<Range>) {
    AllCovered(image, ranges) && memory == UploadAll(former, ranges, Readout(image))
  }

  lemma SameSlice(a: seq<byte>, b: seq<byte>, r: Range)
    requires (r.size == 0 || End(r) <= |b|) && |b| <= |a| && a[..|b|] == b
    ensures Slice(a, r) == Slice(b, r)
  {
    if r.size != 0 {
      forall i | r.offset <= i < End(r) ensures a[i] == b[i] { assert a[..|b|][i] == a[i]; }
      assert a[r.offset..End(r)] == b[r.offset..End(r)];
    }
  }

  lemma {:induction false} SameUploads(former: seq<byte>, ranges: seq<Range>, a: seq<byte>, b: seq<byte>)
    requires Fits(ranges, |b|) && |b| <= |a| && a[..|b|] == b
    ensures UploadAll(former, ranges, a) == UploadAll(former, ranges, b)
  {
    if ranges != [] {
      var before, r := ranges[..|ranges| - 1], ranges[|ranges| - 1];
      assert (forall q :: q in before ==> q in ranges) && r in ranges;
      SameUploads(former, before, a, b);
      SameSlice(a, b, r);
    }
  }

  /** Of a canonical image, that is the ranges inside it and its contents. */
  lemma CanonicalUploads(former: seq<byte>, memory: seq<byte>, image: Image, ranges: seq<Range>)
    requires Canonical(image)
    ensures Uploaded(former, memory, image, ranges) <==>
      Fits(ranges, image.byteSize) && memory == UploadAll(former, ranges, Contents(image))
  {
    forall r | r in ranges ensures Covered(image, r) <==> r.size == 0 || End(r) <= image.byteSize { CanonicalReadout(image, r); }
    if Fits(ranges, image.byteSize) {
      CanonicalReadout(image, Range(0, 0));
      SameUploads(former, ranges, Readout(image), Contents(image));
    }
  }

  // ---- when a build is ready ----

  /** The build is asked for, and not stopped before it looks for a backing. */
  predicate Enters(input: Input, env: Environment) {
    input.hasService && input.elementStride != 0 && input.hasPool && !env.stops(0)
  }

  predicate RowsFit(input: Input, capacity: nat) {
    input.elementCount * input.elementStride <= capacity
  }

  /** It has its own image, or one can be replayed, or the GPU writes it. */
  predicate Imaged(input: Input) {
    input.gpuWritten || input.image.Some? || Replayable(input)
  }

  /** It gets as far as its uploads. */
  predicate Places(input: Input, leased: Option<bool>, capacity: nat, hasBuffer: bool, env: Environment) {
    Enters(input, env) && leased.Some? && RowsFit(input, capacity) && Imaged(input) && !env.stops(1) && hasBuffer
  }

  /** Each upload it chooses goes through; a replayed version uploads all its rows at once. */
  predicate AllUpload(input: Input, isNew: bool, held: nat, heldImage: Option<Image>, env: Environment) {
    if !NeedsContent(input) then true
    else if input.image.Some? then
      var ranges := Chosen(input, isNew, held, heldImage, input.image.value);
      UploadsGo(input.image.value, ranges, env, |ranges|)
    else input.elementCount * input.elementStride == 0 || (!env.retired(0) && env.accepts(0))
  }

  /** Which failure it is, when it does not get to its uploads. */
  predicate Answer(outcome: Outcome, input: Input, leased: Option<bool>, canSuspend: bool, capacity: nat, hasBuffer: bool, env: Environment) {
    var asked := input.hasService && input.elementStride != 0;
    var holding := Enters(input, env) && leased.Some?;
    && (outcome == Failed(NoInput) <==> !asked)
    && (outcome == Failed(NoPool) <==> asked && !input.hasPool)
    && (outcome == Failed(Exhausted) <==> Enters(input, env) && leased.None? && !canSuspend)
    && (outcome == Suspended <==> Enters(input, env) && leased.None? && canSuspend)
    && (outcome == Failed(TooSmall) <==> holding && !RowsFit(input, capacity))
    && (outcome == Failed(NotReplayable) <==> holding && RowsFit(input, capacity) && !Imaged(input))
    && (outcome == Cancelled <==>
          (asked && input.hasPool && env.stops(0)) || (holding && RowsFit(input, capacity) && Imaged(input) && env.stops(1)))
    && (outcome == Failed(NoBuffer) <==> holding && RowsFit(input, capacity) && Imaged(input) && !env.stops(1) && !hasBuffer)
  }

  /** Of a replayed image the uploads are one range, which its pages cover. */
  lemma ReplayedUploads(input: Input, isNew: bool, held: nat, heldImage: Option<Image>, image: Image, env: Environment)
    requires input.image.None? && NeedsContent(input) && Canonical(image) && image.byteSize == input.elementCount * input.elementStride
    ensures var ranges := Chosen(input, isNew, held, heldImage, image);
      UploadsGo(image, ranges, env, |ranges|) <==> AllUpload(input, isNew, held, heldImage, env)
  {
    var ranges := Chosen(input, isNew, held, heldImage, image);
    if image.byteSize != 0 {
      assert ranges == [Range(0, image.byteSize)];
      CanonicalReadout(image, ranges[0]);
      assert UploadGoes(image, ranges, env, 0) <==> !env.retired(0) && env.accepts(0);
      assert UploadsGo(image, ranges, env, 1) <==> UploadGoes(image, ranges, env, 0);
    }
  }

  /** The uploads of the version's image, when it needs its content. */
  method UploadImage(input: Input, isNew: bool, backing: Backing, image: Option<Image>, env: Environment) returns (failure: Option<Outcome>)
    requires image.Some? ==> Paged(image.value) && ImageFor(input, image.value)
    requires image.None? <==> input.gpuWritten && input.image.None?
    modifies backing
    ensures failure.None? <==> old(AllUpload(input, isNew, backing.contentEpoch, backing.image, env))
    ensures failure.None? && image.Some? ==> Uploaded(old(backing.memory), backing.memory, image.value,
      Chosen(input, isNew, old(backing.contentEpoch), old(backing.image), image.value))
    ensures failure.None? && input.gpuWritten ==> backing.memory == old(backing.memory)
    ensures failure.Some? ==> Forgotten(backing) && image.Some? && Stopped(image.value,
      Chosen(input, isNew, old(backing.contentEpoch), old(backing.image), image.value), env, failure.value, old(backing.memory), backing.memory)
  {
    failure := None;
    if image.Some? && input.image.None? && NeedsContent(input) {
      ReplayedUploads(input, isNew, backing.contentEpoch, backing.image, image.value, env);
    }
    var needsInitialContent := !input.gpuWritten && !(input.unorderedAccess && input.indirectArguments && input.bytes == [] && input.writes == []);
    if needsInitialContent && image.Some? && image.value.byteSize != 0 {
      var ranges := ChooseRanges(input, isNew, backing, image.value);
      backing.Forget();
      failure := UploadRanges(backing, image.value, ranges, env);
    }
  }

  /** The version's image: its own, or cut from its replay. */
  method MakeImage(input: Input) returns (image: Option<Image>, replayable: bool)
    requires input.image.Some? ==> Paged(input.image.value)
    ensures replayable <==> Imaged(input)
    ensures replayable ==> (image.None? <==> input.gpuWritten && input.image.None?)
    ensures replayable && image.Some? ==> Paged(image.value) && ImageFor(input, image.value)
  {
    image, replayable := input.image, true;
    if !input.gpuWritten && image.None? {
      var bytes := Replay(input);
      if bytes.None? { return None, false; }
      var replayed := FromBytes(bytes.value);
      CanonicalReadout(replayed, Range(0, 0));
      image := Some(replayed);
    }
  }

  /** One version built into the leased backing. `leased` is whether Acquire made it new, None when the pool is exhausted. */
  method Build(input: Input, backing: Backing, leased: Option<bool>, canSuspend: bool, env: Environment) returns (outcome: Outcome)
    requires input.image.Some? ==> Paged(input.image.value)
    modifies backing
    ensures outcome.Ready? <==>
      && Places(input, leased, backing.byteCapacity, backing.hasBuffer, env)
      && old(AllUpload(input, leased.value, backing.contentEpoch, backing.image, env))
    ensures Answer(outcome, input, leased, canSuspend, backing.byteCapacity, backing.hasBuffer, env)
    ensures outcome.Ready? ==>
      && outcome.writeSequence == input.writeSequence == backing.contentEpoch && backing.image == outcome.image
      && leased.Some? && input.elementCount * input.elementStride <= backing.byteCapacity
      && (input.gpuWritten <==> outcome.image.None?)
      && (input.gpuWritten ==> backing.memory == old(backing.memory))
      && (outcome.image.Some? ==>
            && ImageFor(input, outcome.image.value)
            && Uploaded(old(backing.memory), backing.memory, outcome.image.value,
                 Chosen(input, leased.value, old(backing.contentEpoch), old(backing.image), outcome.image.value)))
    ensures !Places(input, leased, backing.byteCapacity, backing.hasBuffer, env) ==> unchanged(backing)
    ensures !outcome.Ready? && Places(input, leased, backing.byteCapacity, backing.hasBuffer, env) ==>
      Forgotten(backing) && exists image :: ImageFor(input, image) && Stopped(image,
        Chosen(input, leased.value, old(backing.contentEpoch), old(backing.image), image), env, outcome, old(backing.memory), backing.memory)
  {
    if !input.hasService || input.elementStride == 0 { return Failed(NoInput); }
    if !input.hasPool { return Failed(NoPool); }
    if env.stops(0) { return Cancelled; }
    if leased.None? {
      if !canSuspend { return Failed(Exhausted); }
      return Suspended;
    }
    if input.elementCount * input.elementStride > backing.byteCapacity { return Failed(TooSmall); }
    var image, replayable := MakeImage(input);
    if !replayable { return Failed(NotReplayable); }
    if env.stops(1) { return Cancelled; }
    if !backing.hasBuffer { return Failed(NoBuffer); }
    var failure := UploadImage(input, leased.value, backing, image, env);
    if failure.Some? { return failure.value; }
    backing.image := if input.gpuWritten then None else image;
    backing.contentEpoch := input.writeSequence;
    outcome := Ready(input.writeSequence, backing.image);
  }
}
