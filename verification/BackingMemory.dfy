/** A pool backing and the upload service that writes it (tests/Buffers/VersionedBufferBuildTests.cpp:39-126 records it the same way):
    uploads land at once and in queue order. */
module BackingMemory {
  import opened Bytes
  import opened BufferImage

  function At(memory: seq<byte>, i: nat): byte {
    if i < |memory| then memory[i] else 0
  }

  function Flatten(segments: seq<seq<byte>>): seq<byte> {
    if segments == [] then [] else Flatten(segments[..|segments| - 1]) + segments[|segments| - 1]
  }

  lemma FlattenPush(segments: seq<seq<byte>>, s: seq<byte>)
    ensures Flatten(segments + [s]) == Flatten(segments) + s
  {
    assert (segments + [s])[..|segments|] == segments;
  }

  lemma {:induction false} FlattenGrows(segments: seq<seq<byte>>, k: nat)
    requires k <= |segments|
    ensures |Flatten(segments[..k])| <= |Flatten(segments)|
  {
    if k < |segments| {
      FlattenGrows(segments[..|segments| - 1], k);
      assert segments[..|segments| - 1][..k] == segments[..k];
    } else {
      assert segments[..k] == segments;
    }
  }

  lemma FlattenPrefix(segments: seq<seq<byte>>, k: nat)
    requires k < |segments|
    ensures Flatten(segments[..k + 1]) == Flatten(segments[..k]) + segments[k]
    ensures |Flatten(segments[..k + 1])| <= |Flatten(segments)|
  {
    FlattenPush(segments[..k], segments[k]);
    assert segments[..k + 1] == segments[..k] + [segments[k]];
    FlattenGrows(segments, k + 1);
  }

  /** It holds nothing a successor may rely on. */
  predicate Forgotten(backing: Backing)
    reads backing
  {
    backing.contentEpoch == 0 && backing.image == None
  }

  /** What the host answers at each question of a kind, in the order asked. */
  datatype Environment = Environment(stops: nat -> bool, retired: nat -> bool, accepts: nat -> bool)

  /** Where a pool's backing is, from its last lease's release to its next one. */
  datatype Place = Leased | Returning | Counted | Stacked | Free

  /** A pool backing: the buffer's memory, what the pool believes it holds, and who uses it. */
  class Backing {
    const stride: nat
    const flags: nat
    const compatibility: nat
    const generation: nat
    const capacityClass: nat
    const byteCapacity: nat
    const hasBuffer: bool
    var memory: seq<byte>
    var contentEpoch: nat
    var image: Option<Image>
    var sealedBytes: nat      // the most of it any published version names
    var safeAt: nat           // the clock point the frames that bound it retire at
    var leases: nat
    var readbackPins: nat
    var bindingConsumers: nat
    ghost var place: Place

    constructor (stride: nat, flags: nat, compatibility: nat, generation: nat, capacityClass: nat, byteCapacity: nat, hasBuffer: bool, memory: seq<byte>)
      ensures this.stride == stride && this.flags == flags && this.compatibility == compatibility && this.generation == generation
      ensures sealedBytes == 0 && safeAt == 0 && leases == 1 && readbackPins == 0 && bindingConsumers == 0 && place == Leased
      ensures this.capacityClass == capacityClass && this.byteCapacity == byteCapacity && this.hasBuffer == hasBuffer && this.memory == memory
      ensures contentEpoch == 0 && image == None
    {
      this.stride, this.flags, this.compatibility, this.generation := stride, flags, compatibility, generation;
      sealedBytes, safeAt, leases, readbackPins, bindingConsumers, place := 0, 0, 1, 0, 0, Leased;
      this.capacityClass, this.byteCapacity, this.hasBuffer := capacityClass, byteCapacity, hasBuffer;
      this.memory, contentEpoch, image := memory, 0, None;
    }

    /** It holds nothing a successor may catch up from. */
    method Forget()
      modifies this`image, this`contentEpoch
      ensures image == None && contentEpoch == 0
    {
      image := None;
      contentEpoch := 0;
    }

    /** The upload service copies the segments one after another to `offset`. */
    method Upload(segments: seq<seq<byte>>, totalSize: nat, offset: nat)
      requires |Flatten(segments)| == totalSize
      modifies this`memory
      ensures memory == Write(old(memory), offset, Flatten(segments))
    {
      if |memory| < offset + totalSize { memory := ZeroExtend(memory, offset + totalSize); }
      ghost var grown := memory;
      var cursor := offset;
      for k := 0 to |segments|
        invariant cursor == offset + |Flatten(segments[..k])| && |Flatten(segments[..k])| <= totalSize
        invariant |memory| == |grown| && memory == Overwrite(grown, offset, Flatten(segments[..k]))
      {
        FlattenPrefix(segments, k);
        OverwriteJoins(grown, offset, Flatten(segments[..k]), segments[k]);
        memory := Overwrite(memory, cursor, segments[k]);
        cursor := cursor + |segments[k]|;
      }
      assert segments[..|segments|] == segments;
    }
  }
}
