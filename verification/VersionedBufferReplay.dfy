/** The pure replay of a build input's bytes (src/VersionedBufferBuild.cpp, ReplayVersionedBuffer). */
module VersionedBufferReplay {
  import opened Bytes
  import opened BufferImage
  import opened JournalHistory

  const MAX_U32: nat := 0xffff_ffff
  const MAX_SIZE: nat := 0xffff_ffff_ffff_ffff

  datatype Previous = Previous(writeSequence: nat, image: Option<Image>)

  datatype Input = Input(
    hasService: bool,
    hasPool: bool,
    writeSequence: nat,
    elementStride: nat,
    elementCount: nat,
    capacity: nat,
    gpuWritten: bool,
    unorderedAccess: bool,
    indirectArguments: bool,
    previous: Option<Previous>,
    writes: seq<BufferWrite>,
    image: Option<Image>,
    journalBaseSequence: nat,
    bytes: seq<byte>)

  /** A write after `former`, inside the version's rows. */
  predicate NextWrite(input: Input, former: nat, w: BufferWrite, required: nat)
    requires input.elementStride != 0
  {
    && former < w.sequence <= input.writeSequence && w.offset + w.size <= required
    && w.offset % input.elementStride == 0 && w.size % input.elementStride == 0
  }

  function Before(input: Input, floor: nat, k: nat): nat
    requires k <= |input.writes|
  {
    if k == 0 then floor else input.writes[k - 1].sequence
  }

  /** The journal's writes step strictly up from `floor`, stay in the version's rows, and close at its sequence. */
  predicate Journalled(input: Input, floor: nat, required: nat)
    requires input.elementStride != 0
  {
    && (forall k :: 0 <= k < |input.writes| ==> NextWrite(input, Before(input, floor, k), input.writes[k], required))
    && (input.writes != [] ==> input.writes[|input.writes| - 1].sequence == input.writeSequence)
  }

  function Held(input: Input): nat {
    if input.previous.Some? then input.previous.value.writeSequence else 0
  }

  function Floor(input: Input): nat {
    if input.previous.Some? then Min(Held(input), input.journalBaseSequence) else 0
  }

  predicate RowsValid(input: Input) {
    && input.elementStride != 0 && input.elementCount <= input.capacity <= MAX_U32
    && input.elementCount <= MAX_SIZE / input.elementStride
  }

  /** Without an image no write past the predecessor may carry bytes; without a snapshot the journal must close on this version. */
  predicate SelfContained(input: Input, required: nat) {
    && (input.bytes != [] ==> |input.bytes| == required)
    && (forall w :: w in input.writes && Held(input) < w.sequence ==> w.size == 0)
    && (input.bytes == [] ==>
          if input.writes != [] then Held(input) <= input.writeSequence
          else input.previous.Some? ==> input.writeSequence == Held(input))
  }

  predicate Replayable(input: Input) {
    && RowsValid(input)
    && var required := input.elementCount * input.elementStride;
       Journalled(input, Floor(input), required)
       && if input.image.Some? then input.image.value.byteSize == required else SelfContained(input, required)
  }

  /** The version's bytes: its image's, its snapshot, or its predecessor's cut or zero-filled. */
  ghost function Replayed(input: Input): seq<byte> {
    var required := input.elementCount * input.elementStride;
    if input.image.Some? then Fit(Joined(input.image.value.pages), required)
    else if input.bytes != [] then Fit(input.bytes, required)
    else if input.previous.Some? && input.previous.value.image.Some? then
      var image := input.previous.value.image.value;
      Fit(Fit(Joined(image.pages), image.byteSize), required)
    else Fit([], required)
  }

  /** The first loop: the sequence reached, or None for a journal that steps wrong. */
  method Validate(input: Input, floor: nat, required: nat) returns (r: Option<nat>)
    requires input.elementStride != 0
    ensures (r.Some? && (input.writes == [] || r.value == input.writeSequence)) <==> Journalled(input, floor, required)
  {
    var validated := floor;
    for k := 0 to |input.writes|
      invariant validated == Before(input, floor, k)
      invariant forall j :: 0 <= j < k ==> NextWrite(input, Before(input, floor, j), input.writes[j], required)
    {
      var w := input.writes[k];
      if w.sequence <= validated || w.sequence > input.writeSequence || w.offset > required || w.size > required - w.offset
         || w.offset % input.elementStride != 0 || w.size % input.elementStride != 0 {
        assert !NextWrite(input, Before(input, floor, k), input.writes[k], required);
        return None;
      }
      validated := w.sequence;
    }
    r := Some(validated);
  }

  /** The last loop: the sequence reached past the predecessor, or None for a write that carries bytes. */
  method ReplayWrites(writes: seq<BufferWrite>, held: nat) returns (r: Option<nat>)
    requires forall k :: 0 < k < |writes| ==> writes[k - 1].sequence < writes[k].sequence
    ensures r.Some? <==> forall w :: w in writes && held < w.sequence ==> w.size == 0
    ensures r.Some? ==> r.value == Last(writes, held)
  {
    var lastSequence := held;
    for k := 0 to |writes|
      invariant lastSequence == if k == 0 then held else Max(held, writes[k - 1].sequence)
      invariant forall w :: w in writes[..k] && held < w.sequence ==> w.size == 0
    {
      assert writes[..k + 1] == writes[..k] + [writes[k]];
      if writes[k].sequence <= lastSequence { continue; }
      if writes[k].size != 0 {
        assert writes[k] in writes;
        return None;
      }
      lastSequence := writes[k].sequence;
    }
    assert writes[..|writes|] == writes;
    r := Some(lastSequence);
  }

  /** The bytes before the journal: the snapshot's, or the predecessor's. */
  method Shadow(input: Input, required: nat) returns (r: Option<seq<byte>>)
    requires input.image.None? && required == input.elementCount * input.elementStride
    ensures r.Some? <==> input.bytes == [] || |input.bytes| == required
    ensures r.Some? ==> r.value == Replayed(input)
  {
    var shadow := seq(required, _ => 0 as byte);
    if input.bytes != [] {
      if required != |input.bytes| { return None; }
      shadow := input.bytes;
    } else if input.previous.Some? && input.previous.value.image.Some? {
      var previous := Materialize(input.previous.value.image.value);
      var copyBytes := Min(required, |previous|);
      shadow := Overwrite(shadow, 0, previous[..copyBytes]);
    }
    r := Some(shadow);
  }

  function Last(writes: seq<BufferWrite>, held: nat): nat {
    if writes == [] then held else Max(held, writes[|writes| - 1].sequence)
  }

  /** The journal does not close on this version. */
  predicate Open(input: Input, last: nat) {
    && input.bytes == []
    && if input.writes != [] then last != input.writeSequence else input.previous.Some? && input.writeSequence != Held(input)
  }

  lemma OpenIsNotContained(input: Input, required: nat)
    requires input.elementStride != 0 && Journalled(input, Floor(input), required)
    ensures SelfContained(input, required) <==>
      && (input.bytes != [] ==> |input.bytes| == required)
      && (forall w :: w in input.writes && Held(input) < w.sequence ==> w.size == 0)
      && !Open(input, Last(input.writes, Held(input)))
  {}

  method ReplayDeltas(input: Input, required: nat) returns (r: Option<seq<byte>>)
    requires input.image.None? && input.elementStride != 0 && required == input.elementCount * input.elementStride
    requires Journalled(input, Floor(input), required)
    ensures r.Some? <==> SelfContained(input, required)
    ensures r.Some? ==> r.value == Replayed(input)
  {
    OpenIsNotContained(input, required);
    r := Shadow(input, required);
    if r.None? { return; }
    forall k | 0 < k < |input.writes| ensures input.writes[k - 1].sequence < input.writes[k].sequence {
      assert NextWrite(input, Before(input, Floor(input), k), input.writes[k], required);
    }
    var held := if input.previous.Some? then input.previous.value.writeSequence else 0;
    var last := ReplayWrites(input.writes, held);
    if last.None? { return None; }
    if input.bytes == [] && ((input.writes != [] && last.value != input.writeSequence)
                             || (input.writes == [] && input.previous.Some? && input.writeSequence != held)) {
      return None;
    }
  }

  /** The replay succeeds exactly on a replayable input, with its bytes. */
  method Replay(input: Input) returns (r: Option<seq<byte>>)
    ensures r.Some? <==> Replayable(input)
    ensures r.Some? ==> r.value == Replayed(input)
  {
    if input.elementStride == 0 || input.elementCount > input.capacity || input.capacity > MAX_U32 { return None; }
    if input.elementCount > MAX_SIZE / input.elementStride { return None; }
    var required := input.elementCount * input.elementStride;
    var floor := if input.previous.Some? then Min(input.previous.value.writeSequence, input.journalBaseSequence) else 0;
    var validated := Validate(input, floor, required);
    if validated.None? || (input.writes != [] && validated.value != input.writeSequence) { return None; }
    if input.image.Some? {
      if input.image.value.byteSize != required { return None; }
      var bytes := Materialize(input.image.value);
      return Some(bytes);
    }
    r := ReplayDeltas(input, required);
  }
}
