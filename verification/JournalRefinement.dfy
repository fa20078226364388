/** The journal class and the build method take exactly the steps JournalRun is about. */
module JournalRefinement {
  import opened Bytes
  import opened BufferImage
  import opened BackingMemory
  import opened JournalHistory
  import opened VersionedBufferReplay
  import B = VersionedBufferBuild
  import J = BufferJournal
  import R = JournalRun

  /** The run's state has this journal. */
  ghost predicate Abstracts(s: R.State, journal: J.BufferJournal)
    reads journal
  {
    s.h == journal.history && s.first == journal.first && s.base == journal.journalBaseSequence
  }

  ghost function Held(backing: Backing): R.Content
    reads backing
  {
    R.Content(backing.memory, backing.contentEpoch, backing.image)
  }

  /** A capture is a Take. */
  method CaptureIsAStep(journal: J.BufferJournal, ghost s: R.State) returns (c: J.Capture, ghost taken: R.Captured)
    requires journal.Valid() && Abstracts(s, journal)
    modifies journal`live, journal.pages
    ensures journal.Valid() && Abstracts(s, journal)
    ensures taken == R.Captured(c.writeSequence, c.baseSequence, c.writes, Image(c.frozen, c.byteSize))
    ensures R.Enabled(s, R.Take(taken))
  {
    c := journal.CaptureDesired();
    taken := R.Captured(c.writeSequence, c.baseSequence, c.writes, Image(c.frozen, c.byteSize));
  }

  lemma AppendedIsAStep(s: R.State, next: History, w: BufferWrite, bytes: seq<byte>, size: nat)
    requires J.Appended(s.h, next, w, bytes, size) && w.sequence == |s.h.images|
    ensures var image := next.images[|s.h.images|];
      && |s.h.images[|s.h.images| - 1]| <= |image|
      && R.Enabled(s, R.Journal(image, w)) && R.Apply(s, R.Journal(image, w)) == s.(h := next)
  {}

  /** An accepted write is a Journal step that does not shrink the image. */
  method AppendIsAStep(journal: J.BufferJournal, offset: nat, bytes: seq<byte>, count: nat, ghost s: R.State)
      returns (r: J.Result, ghost image: seq<byte>, ghost w: BufferWrite)
    requires journal.Valid() && Abstracts(s, journal)
    modifies journal, journal.owned
    ensures journal.Valid() && (r.Throws? ==> Abstracts(s, journal))
    ensures r.Ok? ==> w == BufferWrite(r.sequence, offset * journal.elementStride, |bytes|) && |s.h.images[|s.h.images| - 1]| <= |image|
    ensures r.Ok? ==> R.Enabled(s, R.Journal(image, w)) && Abstracts(R.Apply(s, R.Journal(image, w)), journal)
  {
    w := BufferWrite(|s.h.images|, offset * journal.elementStride, |bytes|);
    r := journal.AppendWrite(offset, bytes, count);
    image := if r.Ok? then journal.history.images[|s.h.images|] else [];
    if r.Ok? { AppendedIsAStep(s, journal.history, w, bytes, journal.byteSize); }
  }

  /** A replacement is a Journal step over the whole image, whatever its size. */
  method ReplaceIsAStep(journal: J.BufferJournal, bytes: seq<byte>, count: nat, capacity: nat, ghost s: R.State) returns (r: J.Result)
    requires journal.Valid() && Abstracts(s, journal)
    modifies journal, journal.owned
    ensures journal.Valid() && (r.Throws? ==> Abstracts(s, journal))
    ensures r.Ok? ==> var a := R.Journal(bytes, BufferWrite(r.sequence, 0, |bytes|)); R.Enabled(s, a) && Abstracts(R.Apply(s, a), journal)
  {
    r := journal.ReplaceImage(bytes, count, capacity);
  }

  /** A growth is a Journal step whose write is empty and whose image is the one before; any other request is no step. */
  method RequestIsAStep(journal: J.BufferJournal, capacity: nat, ghost s: R.State)
    requires journal.Valid() && Abstracts(s, journal)
    modifies journal
    ensures journal.Valid() && (capacity <= old(journal.capacity) ==> Abstracts(s, journal))
    ensures capacity > old(journal.capacity) ==>
      var a := R.Journal(s.h.images[|s.h.images| - 1], BufferWrite(|s.h.images|, journal.byteSize, 0));
      R.Enabled(s, a) && Abstracts(R.Apply(s, a), journal)
  {
    journal.RequestCapacity(capacity);
  }

  /** An acknowledgement is an Acknowledge step to where the base moves: it stays when the version is refused. */
  method AcknowledgeIsAStep(journal: J.BufferJournal, version: Option<nat>, floor: Option<nat>, ghost s: R.State)
    requires journal.Valid() && Abstracts(s, journal)
    modifies journal
    ensures journal.Valid()
    ensures var a := R.Acknowledge(journal.journalBaseSequence); R.Enabled(s, a) && Abstracts(R.Apply(s, a), journal)
    ensures !old(journal.Acknowledges(version)) ==> Abstracts(s, journal)
    ensures Kept(journal.writes, s.h, Max(journal.journalBaseSequence, s.first))
  {
    journal.Acknowledge(version, floor);
  }

  ghost function Started(journal: J.BufferJournal): R.State
    reads journal
  {
    R.State(journal.history, journal.first, journal.journalBaseSequence, {}, map[], {})
  }

  /** A journal starts a run empty. */
  method NewIsAStart(elementStride: nat) returns (journal: J.BufferJournal)
    ensures fresh(journal) && fresh(journal.owned) && journal.Valid() && R.Init(Started(journal)) && Abstracts(Started(journal), journal)
  {
    journal := new J.BufferJournal(elementStride);
  }

  /** Or with the image it is initialized to, whatever it held before. */
  method InitializeIsAStart(journal: J.BufferJournal, bytes: seq<byte>, count: nat, capacity: nat, ghost s: R.State) returns (r: J.Result)
    requires journal.Valid() && Abstracts(s, journal)
    modifies journal, journal.owned
    ensures journal.Valid() && (r.Throws? ==> Abstracts(s, journal))
    ensures r.Ok? ==> R.Init(Started(journal)) && Abstracts(Started(journal), journal) && journal.history.images == [[], bytes]
  {
    r := journal.Initialize(bytes, count, capacity);
  }

  /** What a build leaves in its backing. */
  method BuildLeaves(input: Input, backing: Backing, leased: Option<bool>, canSuspend: bool, env: Environment) returns (outcome: B.Outcome)
    requires input.image.Some? ==> B.Paged(input.image.value)
    modifies backing
    ensures outcome.Ready? ==>
      && leased.Some? && backing.contentEpoch == input.writeSequence && (input.gpuWritten <==> backing.image.None?)
      && (input.gpuWritten ==> backing.memory == old(backing.memory))
      && (backing.image.Some? ==>
            && B.ImageFor(input, backing.image.value)
            && B.Uploaded(old(backing.memory), backing.memory, backing.image.value,
                 B.Chosen(input, leased.value, old(backing.contentEpoch), old(backing.image), backing.image.value)))
    ensures !outcome.Ready? ==> unchanged(backing) || Forgotten(backing)
  {
    outcome := B.Build(input, backing, leased, canSuspend, env);
  }

  /** A build from a captured image that published is a Ready, whether or not it uploads; one that did not left the backing as it was, or
      is an Abandoned. */
  method BuildIsAStep(c: R.Captured, input: Input, id: nat, backing: Backing, leased: Option<bool>, canSuspend: bool, env: Environment,
      ghost s: R.State) returns (outcome: B.Outcome)
    requires c in s.captures && Canonical(c.image) && R.InputOf(c, input)
    requires id in s.backings && s.backings[id] == Held(backing) && !R.Leased(s, id)
    modifies backing
    ensures outcome.Ready? ==>
      && R.Enabled(s, R.Ready(c, input, id, leased == Some(true)))
      && R.Apply(s, R.Ready(c, input, id, leased == Some(true))).backings[id] == Held(backing)
    ensures !outcome.Ready? ==> LeftOrAbandoned(s, id, backing)
  {
    B.CanonicalReadout(c.image, B.Range(0, 0));
    outcome := BuildLeaves(input, backing, leased, canSuspend, env);
    if outcome.Ready? {
      B.CanonicalUploads(s.backings[id].memory, backing.memory, c.image, R.Uploads(c, input, leased == Some(true), s.backings[id]));
    }
  }

  ghost predicate LeftOrAbandoned(s: R.State, id: nat, backing: Backing)
    requires id in s.backings
    reads backing
  {
    || Held(backing) == s.backings[id]
    || (R.Enabled(s, R.Abandoned(id, backing.memory)) && R.Apply(s, R.Abandoned(id, backing.memory)).backings[id] == Held(backing))
  }

  /** A build of a version the GPU writes is a GpuWritten. */
  method GpuBuildIsAStep(c: R.Captured, input: Input, id: nat, backing: Backing, leased: Option<bool>, canSuspend: bool, env: Environment,
      ghost s: R.State) returns (outcome: B.Outcome)
    requires c in s.captures && input.writeSequence == c.sequence && input.gpuWritten
    requires input.image.Some? ==> B.Paged(input.image.value)
    requires id in s.backings && s.backings[id] == Held(backing) && !R.Leased(s, id)
    modifies backing
    ensures outcome.Ready? ==>
      R.Enabled(s, R.GpuWritten(c, id)) && R.Apply(s, R.GpuWritten(c, id)).backings[id] == Held(backing)
    ensures !outcome.Ready? ==> LeftOrAbandoned(s, id, backing)
  {
    outcome := BuildLeaves(input, backing, leased, canSuspend, env);
  }
}
