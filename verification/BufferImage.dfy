/** Paged images (src/BufferImage.cpp). A page a caller left out is `None`. */
module BufferImage {
  import opened Bytes

  const PAGE_BYTES: nat := 0x1_0000

  datatype Image = Image(pages: seq<Option<seq<byte>>>, byteSize: nat)

  /** How many pages a byte size takes, and how much of it page `k` holds. */
  function PageCount(byteSize: nat): nat {
    (byteSize + PAGE_BYTES - 1) / PAGE_BYTES
  }

  function PageSize(byteSize: nat, k: nat): nat
    requires k < PageCount(byteSize)
  {
    Min(PAGE_BYTES, byteSize - PAGE_BYTES * k)
  }

  /** Every page is full but the last, and together they hold exactly the byte size. */
  predicate Canonical(image: Image) {
    && |image.pages| == PageCount(image.byteSize)
    && forall k :: 0 <= k < |image.pages| ==> image.pages[k].Some? && |image.pages[k].value| == PageSize(image.byteSize, k)
  }

  function ByteAt(image: Image, i: nat): byte
    requires Canonical(image) && i < image.byteSize
  {
    image.pages[i / PAGE_BYTES].value[i % PAGE_BYTES]
  }

  /** The dense bytes an image stands for. */
  function Contents(image: Image): (r: seq<byte>)
    requires Canonical(image)
    ensures |r| == image.byteSize
    ensures forall i :: 0 <= i < |r| ==> r[i] == ByteAt(image, i)
  {
    seq(image.byteSize, i requires 0 <= i < image.byteSize => ByteAt(image, i))
  }

  /** FromBytes: cuts the bytes into pages, in order. */
  method FromBytes(bytes: seq<byte>) returns (image: Image)
    ensures Canonical(image) && Contents(image) == bytes
  {
    var pages: seq<Option<seq<byte>>> := [];
    var offset := 0;
    while offset < |bytes|
      invariant offset % PAGE_BYTES == 0 && offset == PAGE_BYTES * |pages|
      invariant |pages| <= PageCount(|bytes|)
      invariant forall k :: 0 <= k < |pages| ==> pages[k].Some? && |pages[k].value| == PageSize(|bytes|, k)
      invariant forall k :: 0 <= k < |pages| ==> pages[k].value == bytes[PAGE_BYTES * k..PAGE_BYTES * k + PageSize(|bytes|, k)]
    {
      var size := Min(PAGE_BYTES, |bytes| - offset);
      pages := pages + [Some(bytes[offset..offset + size])];
      offset := offset + PAGE_BYTES;
    }
    image := Image(pages, |bytes|);
  }

  /** The pages before the first one left out, one after another. */
  function Joined(pages: seq<Option<seq<byte>>>): seq<byte> {
    if pages == [] || pages[0].None? then [] else pages[0].value + Joined(pages[1..])
  }

  /** The bytes cut or zero-filled to exactly `n`. */
  function Fit(bytes: seq<byte>, n: nat): (r: seq<byte>)
    ensures |r| == n && forall i :: 0 <= i < n ==> r[i] == if i < |bytes| then bytes[i] else 0
  {
    if |bytes| < n then ZeroExtend(bytes, n) else bytes[..n]
  }

  lemma JoinedFrom(pages: seq<Option<seq<byte>>>, k: nat)
    requires k < |pages| && pages[k].Some?
    ensures Joined(pages[k..]) == pages[k].value + Joined(pages[k + 1..])
  {
    assert pages[k..][1..] == pages[k + 1..];
  }

  /** Materialize, for any image: the joined pages, cut or zero-filled to the byte size. */
  method Materialize(image: Image) returns (r: seq<byte>)
    ensures r == Fit(Joined(image.pages), image.byteSize)
  {
    ghost var joined := Joined(image.pages);
    var bytes := new byte[image.byteSize](_ => 0);
    var offset, k := 0, 0;
    while k < |image.pages| && image.pages[k].Some? && offset < image.byteSize
      invariant k <= |image.pages| && offset <= image.byteSize && bytes.Length == image.byteSize
      invariant offset <= |joined| && (offset < image.byteSize ==> joined[offset..] == Joined(image.pages[k..]))
      invariant forall i :: 0 <= i < image.byteSize ==> bytes[i] == if i < offset then joined[i] else 0
    {
      JoinedFrom(image.pages, k);
      ghost var rest := Joined(image.pages[k + 1..]);
      var page := image.pages[k].value;
      var size := Min(|page|, image.byteSize - offset);
      CutOff(joined, offset, page, rest);
      CopyInto(bytes, offset, page[..size]);
      offset, k := offset + size, k + 1;
    }
    r := bytes[..];
  }

  lemma CutOff(joined: seq<byte>, offset: nat, page: seq<byte>, rest: seq<byte>)
    requires offset <= |joined| && joined[offset..] == page + rest
    ensures offset + |page| <= |joined| && joined[offset + |page|..] == rest
    ensures forall i :: 0 <= i < |page| ==> joined[offset + i] == page[i]
  {
    assert |joined[offset..]| == |page| + |rest|;
    assert (page + rest)[|page|..] == rest;
    assert joined[offset..][|page|..] == joined[offset + |page|..];
    forall i | 0 <= i < |page| ensures joined[offset + i] == page[i] { assert joined[offset..][i] == page[i]; }
  }

  method CopyInto(bytes: array<byte>, offset: nat, source: seq<byte>)
    requires offset + |source| <= bytes.Length
    modifies bytes
    ensures forall i :: 0 <= i < bytes.Length ==>
      bytes[i] == if offset <= i < offset + |source| then source[i - offset] else old(bytes[i])
  {
    for i := 0 to |source|
      invariant forall k :: 0 <= k < bytes.Length ==>
        bytes[k] == if offset <= k < offset + i then source[k - offset] else old(bytes[k])
    {
      bytes[offset + i] := source[i];
    }
  }

  /** Every byte of a canonical image lies in its page, at its place. */
  lemma {:induction false} JoinedAt(pages: seq<Option<seq<byte>>>, byteSize: nat)
    requires Canonical(Image(pages, byteSize))
    ensures Joined(pages) == Contents(Image(pages, byteSize))
  {
    if pages != [] {
      var rest := if byteSize < PAGE_BYTES then 0 else byteSize - PAGE_BYTES;
      RestCanonical(pages, byteSize, rest);
      JoinedAt(pages[1..], rest);
      ContentsSplit(pages, byteSize, rest);
    }
  }

  lemma RestCanonical(pages: seq<Option<seq<byte>>>, byteSize: nat, rest: nat)
    requires Canonical(Image(pages, byteSize)) && pages != [] && rest == (if byteSize < PAGE_BYTES then 0 else byteSize - PAGE_BYTES)
    ensures Canonical(Image(pages[1..], rest))
  {
    forall k | 0 <= k < |pages[1..]| ensures pages[1..][k].Some? && |pages[1..][k].value| == PageSize(rest, k) {
      assert pages[1..][k] == pages[k + 1];
    }
  }

  lemma ContentsSplit(pages: seq<Option<seq<byte>>>, byteSize: nat, rest: nat)
    requires Canonical(Image(pages, byteSize)) && pages != [] && rest == (if byteSize < PAGE_BYTES then 0 else byteSize - PAGE_BYTES)
    requires Canonical(Image(pages[1..], rest))
    ensures Contents(Image(pages, byteSize)) == pages[0].value + Contents(Image(pages[1..], rest))
  {
    forall i | PAGE_BYTES <= i < byteSize ensures ByteAt(Image(pages, byteSize), i) == ByteAt(Image(pages[1..], rest), i - PAGE_BYTES) {
      assert i / PAGE_BYTES == (i - PAGE_BYTES) / PAGE_BYTES + 1 && i % PAGE_BYTES == (i - PAGE_BYTES) % PAGE_BYTES;
    }
  }

  /** A canonical image materializes to its contents; with FromBytes, a round trip. */
  lemma MaterializesContents(image: Image)
    requires Canonical(image)
    ensures Fit(Joined(image.pages), image.byteSize) == Contents(image)
  {
    JoinedAt(image.pages, image.byteSize);
  }

  method RoundTrip(bytes: seq<byte>) returns (r: seq<byte>)
    ensures r == bytes
  {
    var image := FromBytes(bytes);
    r := Materialize(image);
    MaterializesContents(image);
  }
}
