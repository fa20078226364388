/** What a buffer journal's sequences stand for: the image at each write sequence and the write that made it. */
module JournalHistory {
  import opened Bytes

  /** One journal write: the bytes [offset, offset + size) changed at `sequence`. */
  datatype BufferWrite = BufferWrite(sequence: nat, offset: nat, size: nat)

  /** `images[q]` is the image at sequence q; `log[q]` the write that made it, and None for the image the journal started with. */
  datatype History = History(images: seq<seq<byte>>, log: seq<Option<BufferWrite>>)

  predicate Inside(w: BufferWrite, i: int) {
    w.offset <= i < w.offset + w.size
  }

  /** Outside the write the next image is the former one, zero-extended or cut. */
  predicate Follows(former: seq<byte>, next: seq<byte>, w: BufferWrite) {
    && w.offset + w.size <= |next|
    && forall i :: 0 <= i < |next| && !Inside(w, i) ==> next[i] == if i < |former| then former[i] else 0
  }

  /** The journal started at sequence 0 empty, or at 1 with an image; every later sequence has its write. */
  predicate Valid(h: History, first: nat) {
    && |h.log| == |h.images| && first <= 1 && first < |h.images|
    && (forall q :: 0 <= q < |h.log| ==> (h.log[q].None? <==> q <= first))
    && (forall q :: first < q < |h.log| ==> h.log[q].value.sequence == q && Follows(h.images[q - 1], h.images[q], h.log[q].value))
  }

  function Current(h: History): nat
    requires h.images != []
  {
    |h.images| - 1
  }

  function Extended(h: History, image: seq<byte>, w: BufferWrite): History {
    History(h.images + [image], h.log + [Some(w)])
  }

  /** The writes after sequence `from`, in order. */
  predicate Kept(writes: seq<BufferWrite>, h: History, from: nat) {
    && |h.log| == |h.images| && from < |h.images| && |writes| == |h.images| - 1 - from
    && forall k :: 0 <= k < |writes| ==> h.log[from + 1 + k] == Some(writes[k])
  }

  lemma ExtendedValid(h: History, first: nat, image: seq<byte>, w: BufferWrite)
    requires Valid(h, first) && w.sequence == |h.images| && Follows(h.images[|h.images| - 1], image, w)
    ensures Valid(Extended(h, image, w), first)
  {}

  lemma ExtendedKept(h: History, first: nat, image: seq<byte>, w: BufferWrite, writes: seq<BufferWrite>, from: nat)
    requires Valid(h, first) && Kept(writes, h, from)
    ensures Kept(writes + [w], Extended(h, image, w), from)
  {}

  /** The writes past `base` of a journal (Acknowledge's trim). */
  function After(writes: seq<BufferWrite>, base: nat): seq<BufferWrite> {
    if writes == [] then []
    else (if writes[0].sequence <= base then [] else [writes[0]]) + After(writes[1..], base)
  }

  /** Of consecutive writes, those past `base` are a suffix. */
  lemma {:induction false} AfterDrops(writes: seq<BufferWrite>, from: nat, base: nat)
    requires forall k :: 0 <= k < |writes| ==> writes[k].sequence == from + 1 + k
    ensures After(writes, base) == writes[Min(|writes|, if base < from then 0 else base - from)..]
  {
    if writes != [] { AfterDrops(writes[1..], from + 1, base); }
  }

  /** Trimming at `base` keeps exactly the writes after it: none is skipped, none is kept twice. */
  lemma AfterKept(writes: seq<BufferWrite>, h: History, first: nat, from: nat, base: nat)
    requires Valid(h, first) && first <= from && Kept(writes, h, from) && base < |h.images|
    ensures Kept(After(writes, base), h, Max(from, base))
  {
    forall k | 0 <= k < |writes| ensures writes[k].sequence == from + 1 + k {
      assert h.log[from + 1 + k] == Some(writes[k]);
    }
    AfterDrops(writes, from, base);
    KeptSuffix(writes, h, from, if base < from then 0 else base - from);
  }

  lemma KeptSuffix(writes: seq<BufferWrite>, h: History, from: nat, k: nat)
    requires Kept(writes, h, from) && k <= |writes|
    ensures Kept(writes[k..], h, from + k)
  {
    forall j | 0 <= j < |writes[k..]| ensures h.log[from + k + 1 + j] == Some(writes[k..][j]) {
      assert h.log[from + 1 + (k + j)] == Some(writes[k + j]);
    }
  }

  /** The kept writes are exactly those with sequences in (from, current], in strictly increasing order. */
  lemma KeptExactly(writes: seq<BufferWrite>, h: History, first: nat, from: nat, q: nat)
    requires Valid(h, first) && first <= from && Kept(writes, h, from)
    ensures forall j, k :: 0 <= j < k < |writes| ==> writes[j].sequence < writes[k].sequence
    ensures from < q <= Current(h) <==> exists k :: 0 <= k < |writes| && writes[k].sequence == q
  {
    forall k | 0 <= k < |writes| ensures writes[k].sequence == from + 1 + k {
      assert h.log[from + 1 + k] == Some(writes[k]);
    }
    if from < q <= Current(h) { assert writes[q - from - 1].sequence == q; }
  }

  // ---- what a holder of an older image must fetch ----

  /** A write of the sequences (e, c] covers byte i. */
  predicate Touched(h: History, e: nat, c: nat, i: nat)
    requires |h.log| == |h.images| && c < |h.images|
  {
    exists q :: e < q <= c && h.log[q].Some? && Inside(h.log[q].value, i)
  }

  /** Byte i lay outside some image of the sequences [e, c]. */
  predicate Dropped(h: History, e: nat, c: nat, i: nat)
    requires c < |h.images|
  {
    exists q :: e <= q <= c && |h.images[q]| <= i
  }

  /** A byte no write covered is what it was, or zero if an image in between was too short to hold it. */
  lemma {:induction false} UntouchedByte(h: History, first: nat, e: nat, c: nat, i: nat)
    requires Valid(h, first) && first <= e <= c < |h.images| && i < |h.images[e]| && i < |h.images[c]| && !Touched(h, e, c, i)
    ensures h.images[c][i] == if Dropped(h, e, c, i) then 0 else h.images[e][i]
    decreases c
  {
    if e < c {
      var w := h.log[c].value;
      assert !Inside(w, i);
      if i < |h.images[c - 1]| {
        UntouchedByte(h, first, e, c - 1, i);
        assert Dropped(h, e, c - 1, i) <==> Dropped(h, e, c, i);
      } else {
        assert Dropped(h, e, c, i);
      }
    }
  }

  /** No image of the sequences (e, c] is shorter than the one before. */
  predicate Grows(h: History, e: nat, c: nat)
    requires c < |h.images|
  {
    forall q :: e < q <= c ==> |h.images[q - 1]| <= |h.images[q]|
  }

  lemma {:induction false} GrowsMonotone(h: History, e: nat, q: nat, c: nat)
    requires e <= q <= c < |h.images| && Grows(h, e, c)
    ensures |h.images[e]| <= |h.images[q]|
    decreases q
  {
    if e < q { GrowsMonotone(h, e, q - 1, c); }
  }

  /** The old image with every touched byte replaced by the new one's. */
  function CaughtUp(h: History, e: nat, c: nat): (r: seq<byte>)
    requires |h.log| == |h.images| && e <= c < |h.images| && |h.images[e]| == |h.images[c]|
    ensures |r| == |h.images[c]|
    ensures forall i :: 0 <= i < |r| ==> r[i] == if Touched(h, e, c, i) then h.images[c][i] else h.images[e][i]
  {
    seq(|h.images[c]|, i requires 0 <= i < |h.images[c]| => if Touched(h, e, c, i) then h.images[c][i] else h.images[e][i])
  }

  /** A byte that was cut off and zero-filled back, without a write, is zero in the old image too. */
  predicate NothingStale(h: History, e: nat, c: nat)
    requires |h.log| == |h.images| && e <= c < |h.images|
  {
    forall i :: 0 <= i < |h.images[e]| && !Touched(h, e, c, i) && Dropped(h, e, c, i) ==> h.images[e][i] == 0
  }

  /** Fetching the touched bytes is catching up, exactly when nothing stale is left behind. */
  lemma CatchUpIsExact(h: History, first: nat, e: nat, c: nat)
    requires Valid(h, first) && first <= e <= c < |h.images| && |h.images[e]| == |h.images[c]|
    ensures CaughtUp(h, e, c) == h.images[c] <==> NothingStale(h, e, c)
  {
    forall i | 0 <= i < |h.images[e]| && !Touched(h, e, c, i)
      ensures h.images[c][i] == if Dropped(h, e, c, i) then 0 else h.images[e][i]
    {
      UntouchedByte(h, first, e, c, i);
    }
    if NothingStale(h, e, c) {
      assert CaughtUp(h, e, c) == h.images[c];
    } else {
      var i :| 0 <= i < |h.images[e]| && !Touched(h, e, c, i) && Dropped(h, e, c, i) && h.images[e][i] != 0;
      assert CaughtUp(h, e, c)[i] != h.images[c][i];
    }
  }

  /** A journal whose image never shrinks drops nothing, and so leaves nothing stale. */
  lemma GrowingIsNeverStale(h: History, e: nat, c: nat)
    requires e <= c < |h.images| && Grows(h, e, c)
    ensures forall i :: 0 <= i < |h.images[e]| ==> !Dropped(h, e, c, i)
    ensures |h.log| == |h.images| ==> NothingStale(h, e, c)
  {
    forall q | e <= q <= c ensures |h.images[e]| <= |h.images[q]| {
      GrowsMonotone(h, e, q, c);
    }
  }
}
