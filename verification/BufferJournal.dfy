/** A buffer journal (src/BufferJournal.cpp): a paged image written in place, whose pages captures share, and the log of its writes.
    The mutex makes every call one step. */
module BufferJournal {
  import opened Bytes
  import opened BufferImage
  import opened JournalHistory

  const MAX_U64: nat := 0xffff_ffff_ffff_ffff

  datatype Error = InvalidArgument | OutOfRange
  datatype Result = Ok(sequence: nat) | Throws(error: Error)

  /** A page on the heap and how many owners share it. Pages never move: `index` is its place in every list that names it. */
  class Page {
    var data: seq<byte>
    var uses: nat
    ghost var holders: set<Capture>
    ghost const index: nat

    constructor (data: seq<byte>, ghost index: nat)
      ensures this.data == data && uses == 1 && holders == {} && this.index == index
    {
      this.data, uses, holders, this.index := data, 1, {}, index;
    }
  }

  /** An immutable capture of a journal. `frozen` is what its pages held when it was taken. */
  class Capture {
    const writeSequence: nat
    const elementCount: nat
    const capacity: nat
    const previous: Option<nat>
    const writes: seq<BufferWrite>
    const pages: seq<Page>
    const byteSize: nat
    const baseSequence: nat
    ghost const frozen: seq<Option<seq<byte>>>

    constructor (writeSequence: nat, elementCount: nat, capacity: nat, previous: Option<nat>, writes: seq<BufferWrite>,
        pages: seq<Page>, byteSize: nat, baseSequence: nat, ghost frozen: seq<Option<seq<byte>>>)
      ensures this.writeSequence == writeSequence && this.elementCount == elementCount && this.capacity == capacity
      ensures this.previous == previous && this.writes == writes && this.pages == pages && this.byteSize == byteSize
      ensures this.baseSequence == baseSequence && this.frozen == frozen
    {
      this.writeSequence, this.elementCount, this.capacity, this.previous := writeSequence, elementCount, capacity, previous;
      this.writes, this.pages, this.byteSize, this.baseSequence, this.frozen := writes, pages, byteSize, baseSequence, frozen;
    }

    /** Its pages are held for it, and still hold what was captured. */
    ghost predicate Intact(owned: set<Page>)
      reads owned
    {
      && |frozen| == |pages|
      && forall k :: 0 <= k < |pages| ==>
           pages[k] in owned && pages[k].index == k && this in pages[k].holders && frozen[k] == Some(pages[k].data)
    }
  }

  /** Growing pages and tails is zero-extending the bytes. */
  lemma GrownContents(former: Image, grown: seq<Option<seq<byte>>>, pages: seq<Option<seq<byte>>>, desired: nat)
    requires Canonical(former) && former.byteSize <= desired && |grown| == |pages| == PageCount(desired)
    requires forall k :: 0 <= k < |grown| ==>
      grown[k] == if k < |former.pages| then former.pages[k] else Some(seq(PageSize(desired, k), _ => 0 as byte))
    requires forall k :: 0 <= k < |pages| ==> pages[k] == Some(ZeroExtend(grown[k].value, PageSize(desired, k)))
    ensures Canonical(Image(pages, desired)) && Contents(Image(pages, desired)) == ZeroExtend(Contents(former), desired)
  {
    forall i | 0 <= i < desired ensures Contents(Image(pages, desired))[i] == ZeroExtend(Contents(former), desired)[i] {
      var k := i / PAGE_BYTES;
      assert pages[k] == Some(ZeroExtend(grown[k].value, PageSize(desired, k)));
    }
  }

  lemma PiecesJoin(s: seq<byte>, offset: nat, bytes: seq<byte>, done: nat, size: nat)
    requires offset + |bytes| <= |s| && done + size <= |bytes|
    ensures Overwrite(Overwrite(s, offset, bytes[..done]), offset + done, bytes[done..done + size]) ==
      Overwrite(s, offset, bytes[..done + size])
  {
    OverwriteJoins(s, offset, bytes[..done], bytes[done..done + size]);
    assert bytes[..done] + bytes[done..done + size] == bytes[..done + size];
  }

  /** Writing a piece inside page `k` is writing it at its place in the bytes. */
  lemma PieceContents(image: Image, k: nat, pageOffset: nat, piece: seq<byte>)
    requires Canonical(image) && k < |image.pages| && pageOffset + |piece| <= |image.pages[k].value|
    ensures var pages := image.pages[k := Some(Overwrite(image.pages[k].value, pageOffset, piece))];
      && Canonical(Image(pages, image.byteSize)) && k * PAGE_BYTES + pageOffset + |piece| <= image.byteSize
      && Contents(Image(pages, image.byteSize)) == Overwrite(Contents(image), k * PAGE_BYTES + pageOffset, piece)
  {
    var pages := image.pages[k := Some(Overwrite(image.pages[k].value, pageOffset, piece))];
    var next := Image(pages, image.byteSize);
    forall i | 0 <= i < image.byteSize
      ensures Contents(next)[i] == Overwrite(Contents(image), k * PAGE_BYTES + pageOffset, piece)[i]
    {
      assert i == i / PAGE_BYTES * PAGE_BYTES + i % PAGE_BYTES;
    }
  }

  /** The next image is the former, zero-extended to `size`, with the bytes written over it. */
  predicate Appended(former: History, next: History, w: BufferWrite, bytes: seq<byte>, size: nat) {
    && former.images != [] && w.size == |bytes| && w.offset + w.size <= |ZeroExtend(former.images[|former.images| - 1], size)|
    && next == Extended(former, Overwrite(ZeroExtend(former.images[|former.images| - 1], size), w.offset, bytes), w)
  }

  lemma WriteFits(stride: nat, offset: nat, size: nat, count: nat, desired: nat)
    requires stride != 0 && size % stride == 0 && offset + size / stride <= desired && count <= desired
    ensures offset * stride + size <= desired * stride && count * stride <= desired * stride
  {
    var rows := size / stride;
    assert size == rows * stride;
    assert (offset + rows) * stride == offset * stride + rows * stride;
    assert (offset + rows) * stride <= desired * stride;
  }

  class BufferJournal {
    const elementStride: nat
    var writeSequence: nat
    var elementCount: nat
    var capacity: nat
    var previous: Option<nat>
    var writes: seq<BufferWrite>
    var journalBaseSequence: nat
    var byteSize: nat
    var pages: seq<Page>
    ghost var data: seq<Option<seq<byte>>>   // what the pages hold
    ghost var live: set<Capture>             // the captures not released yet
    ghost var owned: set<Page>               // the pages the journal or a live capture holds
    ghost var history: History
    ghost var first: nat                     // the sequence the journal started with

    ghost predicate Ours(p: Page)
      reads this`pages
    {
      p.index < |pages| && pages[p.index] == p
    }

    /** Use counts are exact, and no live capture's bytes have moved. */
    ghost predicate Sharing()
      reads this`pages, this`data, this`live, this`owned, owned
    {
      && |data| == |pages|
      && (forall k :: 0 <= k < |pages| ==> pages[k] in owned && pages[k].index == k && data[k] == Some(pages[k].data))
      && (forall p :: p in owned ==> p.uses == |p.holders| + if Ours(p) then 1 else 0)
      && (forall c :: c in live ==> c.Intact(owned))
    }

    ghost predicate Logged()
      reads this`history, this`first, this`writeSequence, this`journalBaseSequence, this`writes
    {
      && JournalHistory.Valid(history, first) && writeSequence == Current(history)
      && journalBaseSequence <= writeSequence && Kept(writes, history, Max(journalBaseSequence, first))
    }

    ghost predicate Valid()
      reads this, owned
    {
      && Sharing() && Logged()
      && byteSize == elementCount * elementStride && elementCount <= capacity
      && Canonical(Image(data, byteSize)) && Contents(Image(data, byteSize)) == history.images[writeSequence]
    }

    /** `if (use_count != 1) clone`: afterwards only the journal holds page `k`. */
    method Unshare(k: nat)
      requires Sharing() && k < |pages|
      modifies this`pages, this`owned, owned
      ensures Sharing() && data == old(data) && pages[k].uses == 1
      ensures if old(pages[k].uses) == 1 then pages == old(pages) else fresh(pages[k]) && pages == old(pages)[k := pages[k]]
      ensures fresh(owned - old(owned))
      ensures forall p :: p in old(owned) ==> p.data == old(p.data)
    {
      if pages[k].uses != 1 {
        var former := pages[k];
        var page := new Page(former.data, k);
        former.uses := former.uses - 1;
        pages := pages[k := page];
        owned := owned + {page};
      }
    }

    /** Rewrites a page only the journal holds. */
    method SetPage(k: nat, bytes: seq<byte>)
      requires Sharing() && k < |pages| && pages[k].uses == 1
      modifies this`data, pages[k]
      ensures Sharing() && data == old(data)[k := Some(bytes)]
    {
      pages[k].data := bytes;
      data := data[k := Some(bytes)];
    }

    /** A new page at the end. */
    method PushPage(bytes: seq<byte>)
      requires Sharing()
      modifies this`pages, this`owned, this`data
      ensures Sharing() && data == old(data) + [Some(bytes)] && fresh(owned - old(owned))
    {
      var page := new Page(bytes, |pages|);
      pages, owned, data := pages + [page], owned + {page}, data + [Some(bytes)];
    }

    /** `m_pages.clear()`: the journal lets every page go. */
    method ClearPages()
      requires Sharing()
      modifies this`pages, this`data, pages
      ensures Sharing() && data == []
    {
      forall k | 0 <= k < |pages| { pages[k].uses := pages[k].uses - 1; }
      pages, data := [], [];
    }

    /** AppendWrite's first loop: zero pages up to the desired size. */
    method GrowPages(desired: nat)
      requires Sharing() && |pages| <= PageCount(desired)
      modifies this`pages, this`owned, this`data
      ensures Sharing() && |data| == PageCount(desired) && fresh(owned - old(owned))
      ensures forall k :: 0 <= k < |data| ==>
        data[k] == if k < |old(data)| then old(data)[k] else Some(seq(PageSize(desired, k), _ => 0 as byte))
    {
      var required := (desired + PAGE_BYTES - 1) / PAGE_BYTES;
      while |pages| < required
        invariant Sharing() && |old(data)| <= |data| <= required && fresh(owned - old(owned))
        invariant forall k :: 0 <= k < |data| ==>
          data[k] == if k < |old(data)| then old(data)[k] else Some(seq(PageSize(desired, k), _ => 0 as byte))
      {
        var pageOffset := |pages| * PAGE_BYTES;
        var pageSize := Min(PAGE_BYTES, desired - pageOffset);
        PushPage(seq(pageSize, _ => 0 as byte));
      }
    }

    /** Its second loop: every tail page newly covered grows, zero-filled. */
    method GrowTails(desired: nat)
      requires Sharing() && |data| == PageCount(desired)
      modifies this`pages, this`owned, this`data, owned
      ensures Sharing() && |data| == |old(data)| && fresh(owned - old(owned))
      ensures forall k :: 0 <= k < |data| ==> data[k] == Some(ZeroExtend(old(data)[k].value, PageSize(desired, k)))
    {
      var pageIndex := 0;
      while pageIndex < |pages|
        invariant Sharing() && |data| == |old(data)| && pageIndex <= |pages| && fresh(owned - old(owned))
        invariant forall k :: 0 <= k < |data| ==>
          data[k] == if k < pageIndex then Some(ZeroExtend(old(data)[k].value, PageSize(desired, k))) else old(data)[k]
      {
        var pageBegin := pageIndex * PAGE_BYTES;
        var requiredPageSize := Min(PAGE_BYTES, desired - pageBegin);
        if |pages[pageIndex].data| < requiredPageSize {
          Unshare(pageIndex);
          SetPage(pageIndex, ZeroExtend(pages[pageIndex].data, requiredPageSize));
        }
        pageIndex := pageIndex + 1;
      }
    }

    /** A piece of the bytes inside one page, cloned first if a capture shares it. */
    method WritePiece(k: nat, pageOffset: nat, piece: seq<byte>, desired: nat)
      requires Sharing() && Canonical(Image(data, desired)) && k < |pages| && pageOffset + |piece| <= PageSize(desired, k)
      modifies this`pages, this`owned, this`data, owned
      ensures Sharing() && Canonical(Image(data, desired)) && |data| == |old(data)| && fresh(owned - old(owned))
      ensures k * PAGE_BYTES + pageOffset + |piece| <= desired
      ensures Contents(Image(data, desired)) ==
        Overwrite(Contents(Image(old(data), desired)), k * PAGE_BYTES + pageOffset, piece)
    {
      PieceContents(Image(data, desired), k, pageOffset, piece);
      Unshare(k);
      SetPage(k, Overwrite(pages[k].data, pageOffset, piece));
    }

    /** Its third loop: the bytes land page by page, each shared page cloned first. */
    method WritePages(byteOffset: nat, bytes: seq<byte>, desired: nat)
      requires Sharing() && Canonical(Image(data, desired)) && byteOffset + |bytes| <= desired
      modifies this`pages, this`owned, this`data, owned
      ensures Sharing() && Canonical(Image(data, desired)) && fresh(owned - old(owned))
      ensures Contents(Image(data, desired)) == Overwrite(Contents(Image(old(data), desired)), byteOffset, bytes)
    {
      ghost var former := Contents(Image(data, desired));
      var sourceOffset := 0;
      while sourceOffset < |bytes|
        invariant sourceOffset <= |bytes| && Sharing() && |data| == |old(data)| && fresh(owned - old(owned))
        invariant Canonical(Image(data, desired))
        invariant Contents(Image(data, desired)) == Overwrite(former, byteOffset, bytes[..sourceOffset])
      {
        var absoluteOffset := byteOffset + sourceOffset;
        var pageIndex := absoluteOffset / PAGE_BYTES;
        var pageOffset := absoluteOffset % PAGE_BYTES;
        var copySize := Min(|bytes| - sourceOffset, |pages[pageIndex].data| - pageOffset);
        WritePiece(pageIndex, pageOffset, bytes[sourceOffset..sourceOffset + copySize], desired);
        PiecesJoin(former, byteOffset, bytes, sourceOffset, copySize);
        sourceOffset := sourceOffset + copySize;
      }
      assert bytes[..sourceOffset] == bytes;
    }

    /** The three loops together: a zero-extension and an overwrite of the dense bytes, whatever the captures share. */
    method WriteImage(desired: nat, byteOffset: nat, bytes: seq<byte>)
      requires Sharing() && Canonical(Image(data, byteSize)) && byteSize <= desired && byteOffset + |bytes| <= desired
      modifies this`pages, this`owned, this`data, owned
      ensures Sharing() && Canonical(Image(data, desired))
      ensures Contents(Image(data, desired)) == Overwrite(ZeroExtend(Contents(Image(old(data), byteSize)), desired), byteOffset, bytes)
    {
      GrowPages(desired);
      ghost var grown := data;
      GrowTails(desired);
      GrownContents(Image(old(data), byteSize), grown, data, desired);
      WritePages(byteOffset, bytes, desired);
    }

    /** Cuts the bytes into new pages; the old ones go. */
    method ReplacePages(bytes: seq<byte>)
      requires Sharing()
      modifies this`pages, this`owned, this`data, owned
      ensures Sharing() && Canonical(Image(data, |bytes|)) && Contents(Image(data, |bytes|)) == bytes
    {
      ClearPages();
      var offset := 0;
      while offset < |bytes|
        invariant Sharing() && offset == PAGE_BYTES * |data| && |data| <= PageCount(|bytes|)
        invariant forall k :: 0 <= k < |data| ==> data[k] == Some(bytes[PAGE_BYTES * k..PAGE_BYTES * k + PageSize(|bytes|, k)])
      {
        var size := Min(PAGE_BYTES, |bytes| - offset);
        PushPage(bytes[offset..offset + size]);
        offset := offset + PAGE_BYTES;
      }
    }

    /** The next sequence, its write and its image. */
    method LogWrite(offset: nat, size: nat, ghost image: seq<byte>)
      requires Logged() && Follows(history.images[writeSequence], image, BufferWrite(writeSequence + 1, offset, size))
      modifies this`writeSequence, this`writes, this`history
      ensures Logged() && writeSequence == old(writeSequence) + 1
      ensures var w := BufferWrite(writeSequence, offset, size);
        writes == old(writes) + [w] && history == Extended(old(history), image, w)
    {
      writeSequence := writeSequence + 1;
      var w := BufferWrite(writeSequence, offset, size);
      ExtendedValid(history, first, image, w);
      ExtendedKept(history, first, image, w, writes, Max(journalBaseSequence, first));
      history := Extended(history, image, w);
      writes := writes + [w];
    }

    constructor (elementStride: nat)
      ensures Valid() && history == History([[]], [None]) && fresh(owned) && live == {}
    {
      this.elementStride := elementStride;
      writeSequence, elementCount, capacity, previous, writes, journalBaseSequence, byteSize, pages := 0, 0, 0, None, [], 0, 0, [];
      data, live, owned, history, first := [], {}, {}, History([[]], [None]), 0;
    }

    method ResetLog(ghost bytes: seq<byte>)
      modifies this`writes, this`journalBaseSequence, this`writeSequence, this`history, this`first
      ensures Logged() && writes == [] && writeSequence == 1 && journalBaseSequence == 0
      ensures history == History([[], bytes], [None, None])
    {
      writes, journalBaseSequence, writeSequence := [], 0, 1;
      history, first := History([[], bytes], [None, None]), 1;
    }

    method Reset(bytes: seq<byte>, elementCount: nat, capacity: nat)
      requires Sharing() && |bytes| == elementCount * elementStride && elementCount <= capacity
      modifies this, owned
      ensures Valid() && live == old(live) && previous == None && this.capacity == capacity && this.elementCount == elementCount && writes == []
      ensures history == History([[], bytes], [None, None]) && journalBaseSequence == 0
    {
      previous, byteSize := None, |bytes|;
      this.elementCount, this.capacity := elementCount, capacity;
      ResetLog(bytes);
      ReplacePages(bytes);
    }

    /** Resets to an image, at sequence 1. */
    method Initialize(bytes: seq<byte>, elementCount: nat, capacity: nat) returns (r: Result)
      requires Valid()
      modifies this, owned
      ensures Valid() && live == old(live)
      ensures r.Throws? <==> elementStride == 0 || elementCount > capacity || |bytes| != elementCount * elementStride
      ensures r.Ok? ==> history == History([[], bytes], [None, None]) && writes == [] && journalBaseSequence == 0
      ensures r.Ok? ==> r.sequence == writeSequence == 1 && previous == None && this.capacity == capacity && this.elementCount == elementCount
      ensures r.Throws? ==> r.error == InvalidArgument && history == old(history) && writes == old(writes) && this.capacity == old(this.capacity)
      ensures r.Throws? ==> first == old(first) && journalBaseSequence == old(journalBaseSequence) && previous == old(previous)
    {
      if elementStride == 0 || elementCount > capacity || |bytes| != elementCount * elementStride { return Throws(InvalidArgument); }
      Reset(bytes, elementCount, capacity);
      r := Ok(1);
    }

    /** What AppendWrite refuses. */
    function AppendError(elementOffset: nat, bytes: seq<byte>, resulting: nat): Option<Error>
      reads this`capacity
    {
      if elementStride == 0 || bytes == [] || |bytes| % elementStride != 0 then Some(InvalidArgument)
      else if elementOffset + |bytes| / elementStride > Min(MAX_U64, resulting) || resulting > capacity then Some(OutOfRange)
      else None
    }

    /** The write, once accepted. */
    method Append(byteOffset: nat, bytes: seq<byte>, logicalElementCount: nat)
      requires Valid() && logicalElementCount <= capacity
      requires byteSize <= logicalElementCount * elementStride && byteOffset + |bytes| <= logicalElementCount * elementStride
      modifies this`pages, this`owned, this`data, this`writeSequence, this`writes, this`history, this`byteSize, this`elementCount, owned
      ensures Valid() && elementCount == logicalElementCount && writeSequence == old(writeSequence) + 1
      ensures Appended(old(history), history, BufferWrite(writeSequence, byteOffset, |bytes|), bytes, byteSize)
      ensures writes == old(writes) + [BufferWrite(writeSequence, byteOffset, |bytes|)]
    {
      var desired := logicalElementCount * elementStride;
      ghost var image := Overwrite(ZeroExtend(history.images[writeSequence], desired), byteOffset, bytes);
      WriteImage(desired, byteOffset, bytes);
      LogWrite(byteOffset, |bytes|, image);
      byteSize, elementCount := desired, logicalElementCount;
    }

    /** Rows written: the new image is the former one zero-extended to the new extent, with the bytes over it. */
    method AppendWrite(elementOffset: nat, bytes: seq<byte>, resultingElementCount: nat) returns (r: Result)
      requires Valid()
      modifies this, owned
      ensures Valid() && live == old(live) && capacity == old(capacity) && previous == old(previous)
      ensures journalBaseSequence == old(journalBaseSequence) && first == old(first)
      ensures r.Throws? <==> old(AppendError(elementOffset, bytes, resultingElementCount)).Some?
      ensures r.Throws? ==> r.error == old(AppendError(elementOffset, bytes, resultingElementCount)).value
      ensures r.Throws? ==> history == old(history) && writes == old(writes) && elementCount == old(elementCount)
      ensures r.Ok? ==>
        && elementCount == Max(old(elementCount), resultingElementCount) && r.sequence == writeSequence
        && Appended(old(history), history, BufferWrite(r.sequence, elementOffset * elementStride, |bytes|), bytes, byteSize)
        && writes == old(writes) + [BufferWrite(r.sequence, elementOffset * elementStride, |bytes|)]
    {
      if elementStride == 0 || bytes == [] || |bytes| % elementStride != 0 { return Throws(InvalidArgument); }
      var writeElements := |bytes| / elementStride;
      if elementOffset + writeElements > MAX_U64 || elementOffset + writeElements > resultingElementCount { return Throws(OutOfRange); }
      if resultingElementCount > capacity { return Throws(OutOfRange); }
      var logicalElementCount := Max(elementCount, resultingElementCount);
      var byteOffset := elementOffset * elementStride;
      WriteFits(elementStride, elementOffset, |bytes|, elementCount, logicalElementCount);
      Append(byteOffset, bytes, logicalElementCount);
      r := Ok(writeSequence);
    }

    /** Replaces the whole image, smaller or larger, in one write covering it. */
    method ReplaceImage(bytes: seq<byte>, elementCount: nat, capacity: nat) returns (r: Result)
      requires Valid()
      modifies this, owned
      ensures Valid() && live == old(live) && previous == old(previous) && journalBaseSequence == old(journalBaseSequence)
      ensures first == old(first)
      ensures r.Throws? <==> elementStride == 0 || elementCount > capacity || |bytes| != elementCount * elementStride
      ensures r.Throws? ==> r.error == InvalidArgument && history == old(history) && writes == old(writes) && this.capacity == old(this.capacity)
      ensures r.Ok? ==>
        && this.capacity == Max(old(this.capacity), capacity) && this.elementCount == elementCount && r.sequence == writeSequence
        && history == Extended(old(history), bytes, BufferWrite(r.sequence, 0, |bytes|))
        && writes == old(writes) + [BufferWrite(r.sequence, 0, |bytes|)]
    {
      if elementStride == 0 || elementCount > capacity || |bytes| != elementCount * elementStride { return Throws(InvalidArgument); }
      this.capacity, this.elementCount, byteSize := Max(this.capacity, capacity), elementCount, |bytes|;
      ReplacePages(bytes);
      LogWrite(0, |bytes|, bytes);
      r := Ok(writeSequence);
    }

    /** Raises the capacity; a zero-length write closes its sequence, and the image stays. */
    method RequestCapacity(capacity: nat)
      requires Valid()
      modifies this
      ensures Valid() && live == old(live) && owned == old(owned) && this.capacity == Max(old(this.capacity), capacity)
      ensures elementCount == old(elementCount) && previous == old(previous) && journalBaseSequence == old(journalBaseSequence)
      ensures first == old(first)
      ensures capacity <= old(this.capacity) ==> history == old(history) && writes == old(writes)
      ensures capacity > old(this.capacity) ==>
        var w := BufferWrite(writeSequence, elementCount * elementStride, 0);
        history == Extended(old(history), old(history.images[writeSequence]), w) && writes == old(writes) + [w]
    {
      if capacity <= this.capacity { return; }
      this.capacity := capacity;
      LogWrite(elementCount * elementStride, 0, history.images[writeSequence]);
    }

    /** One more owner of a page: a capture that is being taken. */
    method Hold(p: Page, ghost c: Capture)
      requires Sharing() && p in owned && c !in live && c !in p.holders
      modifies p`uses, p`holders
      ensures Sharing() && p.holders == old(p.holders) + {c}
    {
      p.uses, p.holders := p.uses + 1, p.holders + {c};
    }

    /** One owner less: a capture that is let go. */
    method Drop(p: Page, ghost c: Capture)
      requires Sharing() && p in owned && c !in live && c in p.holders
      modifies p`uses, p`holders
      ensures Sharing() && p.holders == old(p.holders) - {c}
    {
      assert p.holders == (p.holders - {c}) + {c};
      p.uses, p.holders := p.uses - 1, p.holders - {c};
    }

    method HoldAll(ghost c: Capture)
      requires Sharing() && c !in live && forall k :: 0 <= k < |pages| ==> c !in pages[k].holders
      modifies pages
      ensures Sharing() && forall k :: 0 <= k < |pages| ==> c in pages[k].holders
    {
      for k := 0 to |pages|
        invariant Sharing()
        invariant forall j :: 0 <= j < |pages| ==> (c in pages[j].holders <==> j < k)
      {
        Hold(pages[k], c);
      }
    }

    method DropAll(c: Capture)
      requires Sharing() && c !in live && c.Intact(owned)
      modifies c.pages
      ensures Sharing() && forall k :: 0 <= k < |c.pages| ==> c.pages[k].holders == old(c.pages[k].holders) - {c}
    {
      ghost var held := seq(|c.pages|, j requires 0 <= j < |c.pages| reads c.pages => c.pages[j].holders);
      for k := 0 to |c.pages|
        invariant Sharing()
        invariant forall j :: 0 <= j < |c.pages| ==> c.pages[j] in owned && c.pages[j].index == j
        invariant forall j :: 0 <= j < |c.pages| ==> c.pages[j].holders == if j < k then held[j] - {c} else held[j]
      {
        Drop(c.pages[k], c);
      }
    }

    /** Shares every page with an immutable capture of the current image and log. */
    method CaptureDesired() returns (c: Capture)
      requires Valid()
      modifies this`live, pages
      ensures Valid() && fresh(c) && live == old(live) + {c}
      ensures c.writeSequence == writeSequence && c.elementCount == elementCount && c.capacity == capacity
      ensures c.previous == previous && c.writes == writes && c.baseSequence == journalBaseSequence && c.byteSize == byteSize
      ensures Canonical(Image(c.frozen, c.byteSize)) && Contents(Image(c.frozen, c.byteSize)) == history.images[writeSequence]
    {
      c := new Capture(writeSequence, elementCount, capacity, previous, writes, pages, byteSize, journalBaseSequence, data);
      HoldAll(c);
      live := live + {c};
    }

    /** The last holder of a capture lets it go. */
    method ReleaseCapture(c: Capture)
      requires Valid() && c in live
      modifies this`live, c.pages
      ensures Valid() && live == old(live) - {c}
      ensures forall k :: 0 <= k < |c.pages| ==> c.pages[k].uses == old(c.pages[k].uses) - 1 && c.pages[k].holders == old(c.pages[k].holders) - {c}
    {
      live := live - {c};
      DropAll(c);
    }

    /** Acknowledge takes only a version of this journal that is newer than the last one. */
    predicate Acknowledges(version: Option<nat>)
      reads this`previous, this`writeSequence
    {
      version.Some? && version.value <= writeSequence && (previous.Some? ==> previous.value < version.value)
    }

    /** The base moves, and the writes at or below it go. */
    method Trim(base: nat)
      requires Logged() && journalBaseSequence <= base <= writeSequence
      modifies this`journalBaseSequence, this`writes
      ensures Logged() && journalBaseSequence == base
    {
      AfterKept(writes, history, first, Max(journalBaseSequence, first), base);
      journalBaseSequence, writes := base, After(writes, base);
    }

    /** A published version becomes `previous`, and the writes at or below the floor go, whatever the floor says. */
    method Acknowledge(version: Option<nat>, floor: Option<nat>)
      requires Valid()
      modifies this`previous, this`journalBaseSequence, this`writes
      ensures Valid()
      ensures !old(Acknowledges(version)) ==>
        previous == old(previous) && journalBaseSequence == old(journalBaseSequence) && writes == old(writes)
      ensures old(Acknowledges(version)) ==>
        && previous == version
        && journalBaseSequence ==
             Max(old(journalBaseSequence), if floor.Some? then Min(version.value, floor.value) else version.value)
    {
      if version.None? { return; }
      if version.value > writeSequence || (previous.Some? && version.value <= previous.value) { return; }
      previous := version;
      var base := if floor.Some? then Min(version.value, floor.value) else version.value;
      Trim(Max(journalBaseSequence, base));
    }
  }
}
