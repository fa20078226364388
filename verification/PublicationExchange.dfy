/** The three-slot exchange (include/ORGModuleServices/Async/PublicationExchange.h): one producer publishes complete
    successors, one consumer selects them. Each action is one atomic load, store or exchange of the source, or one access of a
    slot's value (which is not atomic); the producer's and the consumer's actions interleave freely. A candidate is named by
    the number of the call that offers it. */
module PublicationExchange {

  /** No slot (`kNone`). */
  const NONE: nat := 3

  datatype SlotState = Empty | Ready | Active | Retired
  datatype Value = Null | Lease(candidate: nat)
  datatype Slot = Slot(value: Value, state: SlotState)

  /** What became of a candidate that was handed over. */
  datatype Fate = Selected | Rejected | Replaced
  datatype Decision = Decision(candidate: nat, fate: Fate)

  datatype Producer =
    | ProducerIdle
    | Exchanging(candidate: nat)                        // TryReplace: about to take back the ready index
    | TakingBack(candidate: nat, slot: nat)             // took it, about to retire its slot
    | Checking(candidate: nat, replacing: bool)         // TryPublish: about to load the ready index
    | Reclaiming(offer: Value, replacing: bool, slot: nat)   // ReclaimRetired: about to load this slot's state
    | Resetting(offer: Value, replacing: bool, slot: nat)    // saw Retired: about to release its value
    | Emptying(offer: Value, replacing: bool, slot: nat)     // about to mark it Empty
    | Scanning(candidate: nat, replacing: bool, slot: nat)   // about to load this slot's state
    | Filling(candidate: nat, replacing: bool, slot: nat)    // saw Empty: about to move the candidate in
    | Marking(candidate: nat, replacing: bool, slot: nat)    // about to mark it Ready
    | Announcing(candidate: nat, replacing: bool, slot: nat) // about to store the ready index
    | Returning(candidate: nat, replacing: bool, sawReady: bool, published: bool)

  datatype Consumer =
    | ConsumerIdle
    | Judging(slot: nat)      // TrySelect: took the ready index, about to ask `accept`
    | Refusing(slot: nat)     // rejected: about to retire it
    | Accepting(slot: nat)    // accepted: about to mark it Active
    | Retiring(slot: nat)     // about to retire what was active

  datatype State = State(
    slots: seq<Slot>,
    ready: nat,
    active: nat,
    producer: Producer,
    consumer: Consumer,
    calls: nat,                  // TryPublish and TryReplace calls so far
    published: set<nat>,         // history: candidates announced
    decisions: seq<Decision>,    // history: what became of them, in order
    selected: seq<nat>)          // history: the candidates selected, in order

  datatype Action =
    // producer
    | BeginPublish
    | BeginReplace
    | BeginReclaim
    | ProducerStep
    // consumer
    | BeginSelect
    | Judge(accept: bool)
    | BeginClear
    | ConsumerStep

  predicate Init(s: State) {
    && s.slots == [Slot(Null, Empty), Slot(Null, Empty), Slot(Null, Empty)]
    && s.ready == NONE && s.active == NONE
    && s.producer == ProducerIdle && s.consumer == ConsumerIdle
    && s.calls == 0 && s.published == {} && s.decisions == [] && s.selected == []
  }

  predicate Enabled(s: State, a: Action) {
    match a
    case BeginPublish => s.producer == ProducerIdle
    case BeginReplace => s.producer == ProducerIdle
    case BeginReclaim => s.producer == ProducerIdle
    case ProducerStep => s.producer != ProducerIdle
    case BeginSelect => s.consumer == ConsumerIdle
    case Judge(_) => s.consumer.Judging?
    case BeginClear => s.consumer == ConsumerIdle
    case ConsumerStep => s.consumer != ConsumerIdle && !s.consumer.Judging?
  }

  function Mark(s: State, i: nat, state: SlotState): State
    requires i < |s.slots|
  {
    s.(slots := s.slots[i := s.slots[i].(state := state)])
  }

  function SetValue(s: State, i: nat, value: Value): State
    requires i < |s.slots|
  {
    s.(slots := s.slots[i := s.slots[i].(value := value)])
  }

  /** The index a producer works on is a slot: part of the invariant, needed for the step to be defined. */
  predicate InRange(s: State) {
    && |s.slots| == 3 && s.ready <= NONE && s.active <= NONE
    && (match s.producer
        case TakingBack(_, i) => i < 3
        case Reclaiming(_, _, i) => i <= 3
        case Resetting(_, _, i) => i < 3
        case Emptying(_, _, i) => i < 3
        case Scanning(_, _, i) => i <= 3
        case Filling(_, _, i) => i < 3
        case Marking(_, _, i) => i < 3
        case Announcing(_, _, i) => i < 3
        case _ => true)
    && (s.consumer.ConsumerIdle? || s.consumer.slot < 3)
  }

  function Decide(s: State, i: nat, fate: Fate): State
    requires i < |s.slots|
  {
    if s.slots[i].value.Null? then s
    else s.(decisions := s.decisions + [Decision(s.slots[i].value.candidate, fate)])
  }

  /** The steps inside TryPublish, TryReplace and ReclaimRetired. */
  function StepProducer(s: State): State
    requires InRange(s) && s.producer != ProducerIdle
  {
    match s.producer
    case Exchanging(c) =>
      if s.ready == NONE then s.(producer := Checking(c, true))
      else Decide(s, s.ready, Replaced).(ready := NONE, producer := TakingBack(c, s.ready))
    case TakingBack(c, i) => Mark(s, i, Retired).(producer := Checking(c, true))
    case Checking(c, replacing) =>
      s.(producer := if s.ready != NONE then Returning(c, replacing, true, false) else Reclaiming(Lease(c), replacing, 0))
    case Reclaiming(offer, replacing, i) =>
      s.(producer :=
        if i < 3 then
          if s.slots[i].state == Retired then Resetting(offer, replacing, i) else Reclaiming(offer, replacing, i + 1)
        else if offer.Null? then ProducerIdle
        else Scanning(offer.candidate, replacing, 0))
    case Resetting(offer, replacing, i) => SetValue(s, i, Null).(producer := Emptying(offer, replacing, i))
    case Emptying(offer, replacing, i) => Mark(s, i, Empty).(producer := Reclaiming(offer, replacing, i + 1))
    case Scanning(c, replacing, i) =>
      s.(producer :=
        if i == 3 then Returning(c, replacing, false, false)
        else if s.slots[i].state == Empty then Filling(c, replacing, i)
        else Scanning(c, replacing, i + 1))
    case Filling(c, replacing, i) => SetValue(s, i, Lease(c)).(producer := Marking(c, replacing, i))
    case Marking(c, replacing, i) => Mark(s, i, Ready).(producer := Announcing(c, replacing, i))
    case Announcing(c, replacing, i) =>
      s.(ready := i, published := s.published + {c}, producer := Returning(c, replacing, false, true))
    case Returning(_, _, _, _) => s.(producer := ProducerIdle)
  }

  function StepConsumer(s: State): State
    requires InRange(s) && s.consumer != ConsumerIdle && !s.consumer.Judging?
  {
    match s.consumer
    case Refusing(i) => Mark(s, i, Retired).(consumer := ConsumerIdle)
    case Accepting(i) => Mark(s, i, Active).(active := i, consumer := if s.active == NONE then ConsumerIdle else Retiring(s.active))
    case Retiring(i) => Mark(s, i, Retired).(consumer := ConsumerIdle)
  }

  function Apply(s: State, a: Action): State
    requires InRange(s) && Enabled(s, a)
  {
    match a
    case BeginPublish => s.(producer := Checking(s.calls, false), calls := s.calls + 1)
    case BeginReplace => s.(producer := Exchanging(s.calls), calls := s.calls + 1)
    case BeginReclaim => s.(producer := Reclaiming(Null, false, 0))
    case ProducerStep => StepProducer(s)
    case BeginSelect => if s.ready == NONE then s else s.(ready := NONE, consumer := Judging(s.ready))
    case Judge(accept) =>
      var i := s.consumer.slot;
      if accept then
        Decide(s, i, Selected).(consumer := Accepting(i),
          selected := if s.slots[i].value.Null? then s.selected else s.selected + [s.slots[i].value.candidate])
      else Decide(s, i, Rejected).(consumer := Refusing(i))
    case BeginClear => if s.active == NONE then s else s.(active := NONE, consumer := Retiring(s.active))
    case ConsumerStep => StepConsumer(s)
  }

  // ---- the invariant ----

  /** The slots the consumer alone may touch: the active one, and the one it is working on. */
  predicate ConsumerOwns(s: State, i: nat) {
    i == s.active || (!s.consumer.ConsumerIdle? && s.consumer.slot == i)
  }

  /** The slot the producer is filling, or taking back. */
  predicate ProducerHolds(s: State, i: nat) {
    match s.producer
    case TakingBack(_, j) => i == j
    case Marking(_, _, j) => i == j
    case Announcing(_, _, j) => i == j
    case _ => false
  }

  /** Nobody's: what the producer may reclaim or fill. */
  predicate Spare(s: State, i: nat) {
    i != s.ready && !ConsumerOwns(s, i) && !ProducerHolds(s, i)
  }

  predicate SlotStates(s: State)
    requires InRange(s)
  {
    && (s.ready < NONE ==> s.slots[s.ready].state == Ready && !ConsumerOwns(s, s.ready) && !ProducerHolds(s, s.ready))
    && (s.active < NONE ==> s.slots[s.active].state == Active && !ProducerHolds(s, s.active))
    && (forall i :: 0 <= i < 3 && Spare(s, i) ==> s.slots[i].state in {Empty, Retired})
    && (!s.consumer.ConsumerIdle? ==>
          && s.consumer.slot != s.active && !ProducerHolds(s, s.consumer.slot)
          && s.slots[s.consumer.slot].state == if s.consumer.Retiring? then Active else Ready)
    && (match s.producer
        case TakingBack(_, i) => s.ready == NONE && s.slots[i].state == Ready
        case Resetting(_, _, i) => Spare(s, i) && s.slots[i].state == Retired
        case Emptying(_, _, i) => Spare(s, i) && s.slots[i].state == Retired
        case Filling(_, _, i) => Spare(s, i) && s.slots[i].state == Empty && s.ready == NONE
        case Marking(c, _, i) => s.slots[i] == Slot(Lease(c), Empty) && s.ready == NONE
        case Announcing(c, _, i) => s.slots[i] == Slot(Lease(c), Ready) && s.ready == NONE
        case Checking(_, replacing) => replacing ==> s.ready == NONE
        case Reclaiming(offer, _, _) => offer.Lease? ==> s.ready == NONE
        case Scanning(_, _, _) => s.ready == NONE
        case Returning(_, replacing, sawReady, published) => published == !sawReady && !(replacing && sawReady)
        case _ => true)
    && (s.producer.Resetting? || s.producer.Emptying? ==> s.producer.offer.Lease? ==> s.ready == NONE)
  }

  /** A slot the consumer does not own, which the scan will find Empty. */
  predicate RoomAt(s: State, j: nat)
    requires InRange(s)
  {
    j < 3 && Spare(s, j) && match s.producer
      case Reclaiming(offer, _, i) => offer.Lease? ==> j < i ==> s.slots[j].state == Empty
      case Resetting(offer, _, i) => offer.Lease? ==> j < i ==> s.slots[j].state == Empty
      case Emptying(offer, _, i) => offer.Lease? ==> j < i ==> s.slots[j].state == Empty
      case Scanning(_, _, i) => i <= j && s.slots[j].state == Empty
      case _ => true
  }

  /** While the producer looks for a slot, there is one: the ready index is taken, and the consumer owns two slots at most. */
  predicate Room(s: State)
    requires InRange(s)
  {
    match s.producer
    case Reclaiming(offer, _, _) => offer.Lease? ==> RoomAt(s, 0) || RoomAt(s, 1) || RoomAt(s, 2)
    case Resetting(offer, _, _) => offer.Lease? ==> RoomAt(s, 0) || RoomAt(s, 1) || RoomAt(s, 2)
    case Emptying(offer, _, _) => offer.Lease? ==> RoomAt(s, 0) || RoomAt(s, 1) || RoomAt(s, 2)
    case Scanning(_, _, _) => RoomAt(s, 0) || RoomAt(s, 1) || RoomAt(s, 2)
    case _ => true
  }

  predicate Decided(s: State, c: nat) {
    exists k :: 0 <= k < |s.decisions| && s.decisions[k].candidate == c
  }

  /** The candidate the producer has in hand. */
  function InHand(producer: Producer): Value {
    match producer
    case Exchanging(c) => Lease(c)
    case TakingBack(c, _) => Lease(c)
    case Checking(c, _) => Lease(c)
    case Reclaiming(offer, _, _) => offer
    case Resetting(offer, _, _) => offer
    case Emptying(offer, _, _) => offer
    case Scanning(c, _, _) => Lease(c)
    case Filling(c, _, _) => Lease(c)
    case Marking(c, _, _) => Lease(c)
    case Announcing(c, _, _) => Lease(c)
    case _ => Null
  }

  /** The candidate in this slot is announced and undecided. */
  predicate Waiting(s: State, i: nat)
    requires i < |s.slots|
  {
    && s.slots[i].value.Lease?
    && s.slots[i].value.candidate in s.published
    && !Decided(s, s.slots[i].value.candidate)
  }

  /** The candidate waiting in the ready slot, and the one being judged, are newer than any selected, in that order. */
  predicate Newest(s: State)
    requires InRange(s)
  {
    && (InHand(s.producer).Lease? ==> InHand(s.producer).candidate + 1 == s.calls)
    && (forall c :: c in s.published ==> c < s.calls && InHand(s.producer) != Lease(c))
    && (s.ready < NONE ==> Waiting(s, s.ready))
    && (s.consumer.Judging? ==>
          && Waiting(s, s.consumer.slot)
          && (s.ready < NONE ==> s.slots[s.consumer.slot].value.candidate < s.slots[s.ready].value.candidate))
    && (forall k :: 0 <= k < |s.selected| ==> s.selected[k] in s.published)
    && (forall j, k :: 0 <= j < k < |s.selected| ==> s.selected[j] < s.selected[k])
    && (forall k :: 0 <= k < |s.selected| ==>
          && (s.ready < NONE ==> s.selected[k] < s.slots[s.ready].value.candidate)
          && (s.consumer.Judging? ==> s.selected[k] < s.slots[s.consumer.slot].value.candidate))
  }

  /** One decision a candidate; every announced one is decided or still waiting. */
  predicate DecidedOnce(s: State)
    requires InRange(s)
  {
    && (forall j, k :: 0 <= j < k < |s.decisions| ==> s.decisions[j].candidate != s.decisions[k].candidate)
    && (forall k :: 0 <= k < |s.decisions| ==> s.decisions[k].candidate in s.published)
    && (forall c :: c in s.published ==>
          || Decided(s, c)
          || (s.ready < NONE && s.slots[s.ready].value == Lease(c))
          || (s.consumer.Judging? && s.slots[s.consumer.slot].value == Lease(c)))
    && (forall k :: 0 <= k < |s.decisions| && s.decisions[k].fate == Selected ==> s.decisions[k].candidate in s.selected)
    && (forall c :: c in s.selected ==> Decision(c, Selected) in s.decisions)
  }

  /** What the frame reads as active is the candidate selected last. */
  predicate ActiveIsSelected(s: State)
    requires InRange(s)
  {
    var n := |s.selected|;
    && (s.active < NONE && !s.consumer.Accepting? ==> n > 0 && s.slots[s.active].value == Lease(s.selected[n - 1]))
    && (s.consumer.Accepting? ==> n > 0 && s.slots[s.consumer.slot].value == Lease(s.selected[n - 1]))
  }

  predicate Inv(s: State) {
    InRange(s) && SlotStates(s) && Room(s) && Newest(s) && DecidedOnce(s) && ActiveIsSelected(s)
  }

  // ---- every action keeps it ----

  lemma HandOverSlots(s: State)
    requires InRange(s) && SlotStates(s) && Room(s) && (s.producer.Exchanging? || s.producer.TakingBack? || s.producer.Checking?)
    ensures InRange(StepProducer(s)) && SlotStates(StepProducer(s)) && Room(StepProducer(s))
  {
    var s' := StepProducer(s);
    if s'.producer.Reclaiming? {
      assert Spare(s, 0) || Spare(s, 1) || Spare(s, 2);
    }
  }

  lemma ReclaimSlots(s: State)
    requires InRange(s) && SlotStates(s) && Room(s) && (s.producer.Reclaiming? || s.producer.Resetting? || s.producer.Emptying?)
    ensures InRange(StepProducer(s)) && SlotStates(StepProducer(s)) && Room(StepProducer(s))
  {}

  lemma FillSlots(s: State)
    requires InRange(s) && SlotStates(s) && Room(s)
    requires s.producer.Scanning? || s.producer.Filling? || s.producer.Marking? || s.producer.Announcing? || s.producer.Returning?
    ensures InRange(StepProducer(s)) && SlotStates(StepProducer(s)) && Room(StepProducer(s))
  {}

  lemma RetireSlots(s: State)
    requires InRange(s) && SlotStates(s) && Room(s) && (s.consumer.Refusing? || s.consumer.Retiring?)
    ensures InRange(StepConsumer(s)) && SlotStates(StepConsumer(s)) && Room(StepConsumer(s))
  {
    var i, s' := s.consumer.slot, StepConsumer(s);
    assert Spare(s', i);
    assert forall j :: j != i ==> (Spare(s', j) <==> Spare(s, j));
  }

  lemma AcceptSlots(s: State)
    requires InRange(s) && SlotStates(s) && Room(s) && s.consumer.Accepting?
    ensures InRange(StepConsumer(s)) && SlotStates(StepConsumer(s)) && Room(StepConsumer(s))
  {
    var s' := StepConsumer(s);
    assert forall j :: 0 <= j < 3 ==> (Spare(s', j) <==> Spare(s, j));
  }

  lemma BeginSlots(s: State, a: Action)
    requires InRange(s) && SlotStates(s) && Room(s) && Enabled(s, a) && !a.ProducerStep? && !a.ConsumerStep?
    ensures InRange(Apply(s, a)) && SlotStates(Apply(s, a)) && Room(Apply(s, a))
  {
    var s' := Apply(s, a);
    assert s'.slots == s.slots;
    assert forall j :: 0 <= j < 3 ==> (Spare(s', j) <==> Spare(s, j));
  }

  lemma StepSlots(s: State, a: Action)
    requires Inv(s) && Enabled(s, a)
    ensures InRange(Apply(s, a)) && SlotStates(Apply(s, a)) && Room(Apply(s, a))
  {
    match a
    case ProducerStep =>
      match s.producer {
        case Exchanging(_) => HandOverSlots(s);
        case TakingBack(_, _) => HandOverSlots(s);
        case Checking(_, _) => HandOverSlots(s);
        case Reclaiming(_, _, _) => ReclaimSlots(s);
        case Resetting(_, _, _) => ReclaimSlots(s);
        case Emptying(_, _, _) => ReclaimSlots(s);
        case _ => FillSlots(s);
      }
    case ConsumerStep => if s.consumer.Accepting? { AcceptSlots(s); } else { RetireSlots(s); }
    case _ => BeginSlots(s, a);
  }

  lemma DecisionAdded(s: State, s': State, d: Decision)
    requires s'.decisions == s.decisions + [d]
    ensures forall c :: Decided(s', c) <==> Decided(s, c) || c == d.candidate
  {
    forall c ensures Decided(s', c) <==> Decided(s, c) || c == d.candidate {
      if Decided(s, c) {
        var k :| 0 <= k < |s.decisions| && s.decisions[k].candidate == c;
        assert s'.decisions[k].candidate == c;
      }
      if c == d.candidate { assert s'.decisions[|s.decisions|].candidate == c; }
    }
  }

  /** What is waiting, judged, published and decided is as it was. */
  predicate SameOffers(s: State, s': State)
    requires InRange(s) && InRange(s')
  {
    && s'.decisions == s.decisions && s'.ready == s.ready && s'.consumer == s.consumer && s'.published == s.published
    && s'.selected == s.selected && s'.calls == s.calls
    && (InHand(s'.producer) == InHand(s.producer) || InHand(s'.producer) == Null)
    && (s.ready < NONE ==> s'.slots[s.ready].value == s.slots[s.ready].value)
    && (s.consumer.Judging? ==> s'.slots[s.consumer.slot].value == s.slots[s.consumer.slot].value)
  }

  lemma SameHistory(s: State, s': State)
    requires InRange(s) && InRange(s') && Newest(s) && DecidedOnce(s) && SameOffers(s, s')
    ensures Newest(s') && DecidedOnce(s')
  {
    assert forall c :: Decided(s', c) <==> Decided(s, c);
  }

  lemma QuietProducer(s: State)
    requires InRange(s) && SlotStates(s) && Enabled(s, ProducerStep)
    requires !s.producer.Announcing? && !(s.producer.Exchanging? && s.ready != NONE)
    ensures InRange(StepProducer(s)) && SameOffers(s, StepProducer(s))
  {}

  /** Steps that decide nothing. */
  lemma QuietHistory(s: State, a: Action)
    requires Inv(s) && Enabled(s, a) && InRange(Apply(s, a)) && Apply(s, a).decisions == s.decisions
    requires !(a.ProducerStep? && s.producer.Announcing?)
    ensures Newest(Apply(s, a)) && DecidedOnce(Apply(s, a))
  {
    if a.ProducerStep? {
      QuietProducer(s);
      SameHistory(s, StepProducer(s));
    } else {
      var s' := Apply(s, a);
      assert forall c :: Decided(s', c) <==> Decided(s, c);
      if s.ready < NONE { assert s'.slots[s.ready].value == s.slots[s.ready].value; }
      if s.consumer.Judging? { assert s'.slots[s.consumer.slot].value == s.slots[s.consumer.slot].value; }
    }
  }

  lemma AnnounceHistory(s: State)
    requires Inv(s) && s.producer.Announcing?
    ensures InRange(StepProducer(s)) && Newest(StepProducer(s)) && DecidedOnce(StepProducer(s))
  {
    var s' := StepProducer(s);
    assert forall c :: Decided(s', c) <==> Decided(s, c);
  }

  lemma ReplaceHistory(s: State)
    requires Inv(s) && s.producer.Exchanging? && s.ready != NONE
    ensures InRange(StepProducer(s)) && Newest(StepProducer(s)) && DecidedOnce(StepProducer(s))
  {
    var s' := StepProducer(s);
    DecisionAdded(s, s', Decision(s.slots[s.ready].value.candidate, Replaced));
  }

  lemma JudgeHistory(s: State, accept: bool)
    requires Inv(s) && s.consumer.Judging?
    ensures InRange(Apply(s, Judge(accept))) && Newest(Apply(s, Judge(accept))) && DecidedOnce(Apply(s, Judge(accept)))
  {
    var s' := Apply(s, Judge(accept));
    DecisionAdded(s, s', Decision(s.slots[s.consumer.slot].value.candidate, if accept then Selected else Rejected));
  }

  lemma StepActive(s: State, a: Action)
    requires Inv(s) && Enabled(s, a) && InRange(Apply(s, a))
    ensures ActiveIsSelected(Apply(s, a))
  {
    var s' := Apply(s, a);
    if a.ProducerStep? {
      if s.active < NONE { assert s'.slots[s.active].value == s.slots[s.active].value; }
    }
  }

  lemma StepInv(s: State, a: Action)
    requires Inv(s) && Enabled(s, a)
    ensures InRange(Apply(s, a)) && Inv(Apply(s, a))
  {
    StepSlots(s, a);
    StepActive(s, a);
    if a.ProducerStep? && s.producer.Announcing? {
      AnnounceHistory(s);
    } else if a.Judge? {
      JudgeHistory(s, a.accept);
    } else if a.ProducerStep? && s.producer.Exchanging? && s.ready != NONE {
      ReplaceHistory(s);
    } else {
      QuietHistory(s, a);
    }
  }

  // ---- over every interleaving ----

  predicate IsRun(run: seq<State>, acts: seq<Action>) {
    && |run| == |acts| + 1
    && Init(run[0])
    && forall i :: 0 <= i < |acts| ==> InRange(run[i]) && Enabled(run[i], acts[i]) && run[i + 1] == Apply(run[i], acts[i])
  }

  lemma {:induction false} RunInv(run: seq<State>, acts: seq<Action>, i: nat)
    requires IsRun(run, acts) && i < |run|
    ensures Inv(run[i])
  {
    if i > 0 {
      RunInv(run, acts, i - 1);
      StepInv(run[i - 1], acts[i - 1]);
    }
  }

  /** The slots whose value the producer's next action writes. */
  function ProducerTouches(s: State): set<nat> {
    match s.producer
    case Resetting(_, _, i) => {i}
    case Filling(_, _, i) => {i}
    case _ => {}
  }

  /** The slots whose value the consumer may read now: the active one at any time, and the one `accept` is shown. */
  function ConsumerTouches(s: State): set<nat> {
    (if s.active == NONE then {} else {s.active}) + (if s.consumer.Judging? then {s.consumer.slot} else {})
  }

  /** The producer and the consumer never touch one slot's value at the same time. */
  lemma NoSharedAccess(run: seq<State>, acts: seq<Action>, i: nat)
    requires IsRun(run, acts) && i < |run|
    ensures ProducerTouches(run[i]) !! ConsumerTouches(run[i])
  {
    RunInv(run, acts, i);
  }

  /** `TryReplace` hands its candidate over whatever the consumer is doing; `TryPublish` does exactly when it loaded no ready
      successor: the source's "no free slot" never happens. */
  lemma ReplaceAlwaysSucceeds(run: seq<State>, acts: seq<Action>, i: nat)
    requires IsRun(run, acts) && i < |run| && run[i].producer.Returning?
    ensures run[i].producer.replacing ==> run[i].producer.published
    ensures run[i].producer.published <==> !run[i].producer.sawReady
  {
    RunInv(run, acts, i);
  }

  // ---- how a call of the producer ends ----

  /** The producer is in the call that offers c; whether it has announced it. */
  predicate Offers(s: State, c: nat, replacing: bool) {
    match s.producer
    case ProducerIdle => false
    case Exchanging(d) => d == c && replacing && c !in s.published
    case TakingBack(d, _) => d == c && replacing && c !in s.published
    case Checking(d, r) => d == c && r == replacing && c !in s.published
    case Reclaiming(offer, r, _) => offer == Lease(c) && r == replacing && c !in s.published
    case Resetting(offer, r, _) => offer == Lease(c) && r == replacing && c !in s.published
    case Emptying(offer, r, _) => offer == Lease(c) && r == replacing && c !in s.published
    case Scanning(d, r, _) => d == c && r == replacing && c !in s.published
    case Filling(d, r, _) => d == c && r == replacing && c !in s.published
    case Marking(d, r, _) => d == c && r == replacing && c !in s.published
    case Announcing(d, r, _) => d == c && r == replacing && c !in s.published
    case Returning(d, r, _, announced) => d == c && r == replacing && (announced <==> c in s.published)
  }

  lemma BeginOffers(s: State, a: Action)
    requires InRange(s) && Enabled(s, a) && (a.BeginPublish? || a.BeginReplace?) && forall c :: c in s.published ==> c < s.calls
    ensures Offers(Apply(s, a), s.calls, a.BeginReplace?)
  {}

  lemma StepOffers(s: State, a: Action, c: nat, replacing: bool)
    requires InRange(s) && Enabled(s, a) && Offers(s, c, replacing)
    ensures Apply(s, a).producer != ProducerIdle ==> Offers(Apply(s, a), c, replacing)
    ensures Apply(s, a).producer == ProducerIdle ==> a == ProducerStep && s.producer.Returning? && Apply(s, a).published == s.published
  {}

  lemma {:induction false} CallOffers(run: seq<State>, acts: seq<Action>, b: nat, j: nat)
    requires IsRun(run, acts) && b < j < |run| && (acts[b].BeginPublish? || acts[b].BeginReplace?)
    requires forall k :: b < k <= j ==> run[k].producer != ProducerIdle
    ensures Offers(run[j], run[b].calls, acts[b].BeginReplace?)
    decreases j
  {
    if b + 1 < j {
      CallOffers(run, acts, b, j - 1);
      StepOffers(run[j - 1], acts[j - 1], run[b].calls, acts[b].BeginReplace?);
    } else {
      RunInv(run, acts, b);
      BeginOffers(run[b], acts[b]);
    }
  }

  lemma BeginsInside(run: seq<State>, acts: seq<Action>, b: nat)
    requires IsRun(run, acts) && b < |acts| && (acts[b].BeginPublish? || acts[b].BeginReplace?)
    ensures run[b + 1].producer != ProducerIdle
  {
    RunInv(run, acts, b);
    BeginOffers(run[b], acts[b]);
  }

  /** A call of TryPublish or TryReplace is under way until it returns; by then a TryReplace has handed its candidate over, and a
      TryPublish has exactly when it loaded no ready successor. */
  lemma CallAnswers(run: seq<State>, acts: seq<Action>, b: nat, j: nat)
    requires IsRun(run, acts) && b < j < |run| && (acts[b].BeginPublish? || acts[b].BeginReplace?)
    requires run[j].producer == ProducerIdle && forall k :: b < k < j ==> run[k].producer != ProducerIdle
    ensures b < j - 1 && run[j - 1].producer.Returning?
    ensures run[b].calls in run[j].published <==> !run[j - 1].producer.sawReady
    ensures acts[b].BeginReplace? ==> run[b].calls in run[j].published
  {
    BeginsInside(run, acts, b);
    CallOffers(run, acts, b, j - 1);
    StepOffers(run[j - 1], acts[j - 1], run[b].calls, acts[b].BeginReplace?);
    ReplaceAlwaysSucceeds(run, acts, j - 1);
  }

  /** A candidate meets one fate at most: selected, rejected or replaced; each later selection is of a newer candidate. */
  lemma DecidedAtMostOnce(run: seq<State>, acts: seq<Action>, i: nat)
    requires IsRun(run, acts) && i < |run|
    ensures forall j, k :: 0 <= j < k < |run[i].decisions| ==> run[i].decisions[j].candidate != run[i].decisions[k].candidate
    ensures forall c :: Decision(c, Selected) in run[i].decisions <==> c in run[i].selected
    ensures forall j, k :: 0 <= j < k < |run[i].selected| ==> run[i].selected[j] < run[i].selected[k]
  {
    RunInv(run, acts, i);
  }

  /** Nothing handed over is lost: with no successor ready and none being judged, every one has met its fate. */
  lemma NothingLost(run: seq<State>, acts: seq<Action>, i: nat)
    requires IsRun(run, acts) && i < |run|
    requires run[i].ready == NONE && !run[i].consumer.Judging?
    ensures forall c :: c in run[i].published <==> Decided(run[i], c)
  {
    RunInv(run, acts, i);
  }

  /** What the frame reads as active is the newest candidate it selected. */
  lemma ActiveIsNewestSelected(run: seq<State>, acts: seq<Action>, i: nat)
    requires IsRun(run, acts) && i < |run| && run[i].active != NONE && run[i].consumer.ConsumerIdle?
    ensures InRange(run[i]) && |run[i].selected| > 0
    ensures run[i].slots[run[i].active] == Slot(Lease(run[i].selected[|run[i].selected| - 1]), Active)
    ensures forall c :: c in run[i].selected ==> c <= run[i].slots[run[i].active].value.candidate
  {
    RunInv(run, acts, i);
  }

  // ---- told by the calls ----

  /** What the last announcement left to select: taken by a selection, or by the next hand-over. */
  function Offered(run: seq<State>, acts: seq<Action>, i: nat): Value
    requires IsRun(run, acts) && i < |run|
  {
    if i == 0 then Null
    else
      match acts[i - 1]
      case BeginSelect => Null
      case ProducerStep =>
        if run[i - 1].producer.Exchanging? then Null
        else if run[i - 1].producer.Announcing? then Lease(run[i - 1].producer.candidate)
        else Offered(run, acts, i - 1)
      case _ => Offered(run, acts, i - 1)
  }

  /** What the frame accepted last, unless it cleared it since. */
  function Kept(run: seq<State>, acts: seq<Action>, i: nat): Value
    requires IsRun(run, acts) && i < |run|
  {
    if i == 0 then Null
    else
      match acts[i - 1]
      case BeginClear => Null
      case Judge(accept) => if accept then Judged(run, acts, i - 1) else Kept(run, acts, i - 1)
      case _ => Kept(run, acts, i - 1)
  }

  /** What the last selection to find something took. */
  function Judged(run: seq<State>, acts: seq<Action>, i: nat): Value
    requires IsRun(run, acts) && i < |run|
    decreases i
  {
    if i == 0 then Null
    else if acts[i - 1] == BeginSelect && Offered(run, acts, i - 1) != Null then Offered(run, acts, i - 1)
    else Judged(run, acts, i - 1)
  }

  predicate ReadyIs(s: State, offered: Value)
    requires InRange(s)
  {
    if s.ready == NONE then offered == Null else offered.Lease? && s.slots[s.ready].value == offered
  }

  predicate JudgingIs(s: State, judged: Value)
    requires InRange(s)
  {
    s.consumer.Judging? || s.consumer.Accepting? || s.consumer.Refusing? ==> judged.Lease? && s.slots[s.consumer.slot].value == judged
  }

  /** While it is accepting, what was active before still is. */
  predicate ActiveIs(s: State, kept: Value)
    requires InRange(s)
  {
    if s.consumer.Accepting? then s.slots[s.consumer.slot].value == kept
    else if s.active == NONE then kept == Null
    else kept.Lease? && s.slots[s.active].value == kept
  }

  lemma StepReady(s: State, a: Action, offered: Value, offered': Value)
    requires InRange(s) && SlotStates(s) && Enabled(s, a) && ReadyIs(s, offered) && InRange(Apply(s, a))
    requires offered' == (if a.BeginSelect? || (a.ProducerStep? && s.producer.Exchanging?) then Null
                          else if a.ProducerStep? && s.producer.Announcing? then Lease(s.producer.candidate) else offered)
    ensures ReadyIs(Apply(s, a), offered')
  {}

  lemma StepJudging(s: State, a: Action, offered: Value, judged: Value)
    requires InRange(s) && SlotStates(s) && Enabled(s, a) && InRange(Apply(s, a)) && ReadyIs(s, offered) && JudgingIs(s, judged)
    ensures JudgingIs(Apply(s, a), if a.BeginSelect? && offered != Null then offered else judged)
  {}

  lemma ProducerKeepsActive(s: State, a: Action, kept: Value)
    requires InRange(s) && SlotStates(s) && Enabled(s, a) && InRange(Apply(s, a)) && ActiveIs(s, kept)
    requires a.BeginPublish? || a.BeginReplace? || a.BeginReclaim? || a.ProducerStep?
    ensures ActiveIs(Apply(s, a), kept)
  {}

  lemma ConsumerActiveIs(s: State, a: Action, judged: Value, kept: Value)
    requires InRange(s) && SlotStates(s) && Enabled(s, a) && InRange(Apply(s, a)) && JudgingIs(s, judged) && ActiveIs(s, kept)
    requires a.BeginSelect? || a.Judge? || a.BeginClear? || a.ConsumerStep?
    ensures ActiveIs(Apply(s, a), if a.BeginClear? then Null else if a.Judge? && a.accept then judged else kept)
  {}

  lemma StepActiveIs(s: State, a: Action, judged: Value, kept: Value)
    requires InRange(s) && SlotStates(s) && Enabled(s, a) && InRange(Apply(s, a)) && JudgingIs(s, judged) && ActiveIs(s, kept)
    ensures ActiveIs(Apply(s, a), if a.BeginClear? then Null else if a.Judge? && a.accept then judged else kept)
  {
    if a.BeginSelect? || a.Judge? || a.BeginClear? || a.ConsumerStep? {
      ConsumerActiveIs(s, a, judged, kept);
    } else {
      ProducerKeepsActive(s, a, kept);
    }
  }

  lemma RunSlots(run: seq<State>, acts: seq<Action>, i: nat)
    requires IsRun(run, acts) && i < |run|
    ensures InRange(run[i]) && SlotStates(run[i])
  {
    RunInv(run, acts, i);
  }

  lemma {:induction false} RunReady(run: seq<State>, acts: seq<Action>, i: nat)
    requires IsRun(run, acts) && i < |run|
    ensures InRange(run[i]) && ReadyIs(run[i], Offered(run, acts, i))
  {
    RunSlots(run, acts, i);
    if i > 0 {
      RunReady(run, acts, i - 1);
      RunSlots(run, acts, i - 1);
      StepReady(run[i - 1], acts[i - 1], Offered(run, acts, i - 1), Offered(run, acts, i));
    }
  }

  lemma {:induction false} RunJudging(run: seq<State>, acts: seq<Action>, i: nat)
    requires IsRun(run, acts) && i < |run|
    ensures InRange(run[i]) && JudgingIs(run[i], Judged(run, acts, i))
  {
    RunSlots(run, acts, i);
    if i > 0 {
      RunJudging(run, acts, i - 1);
      RunReady(run, acts, i - 1);
      RunSlots(run, acts, i - 1);
      StepJudging(run[i - 1], acts[i - 1], Offered(run, acts, i - 1), Judged(run, acts, i - 1));
    }
  }

  lemma {:induction false} RunActive(run: seq<State>, acts: seq<Action>, i: nat)
    requires IsRun(run, acts) && i < |run|
    ensures InRange(run[i]) && ActiveIs(run[i], Kept(run, acts, i))
  {
    RunSlots(run, acts, i);
    if i > 0 {
      RunActive(run, acts, i - 1);
      RunJudging(run, acts, i - 1);
      RunSlots(run, acts, i - 1);
      StepActiveIs(run[i - 1], acts[i - 1], Judged(run, acts, i - 1), Kept(run, acts, i - 1));
    }
  }

  /** What a selection finds is what was announced last and neither selected nor taken back since; nothing, when that is nothing. */
  lemma SelectsTheOffered(run: seq<State>, acts: seq<Action>, i: nat)
    requires IsRun(run, acts) && i < |acts| && acts[i] == BeginSelect
    ensures run[i + 1].consumer.Judging? <==> Offered(run, acts, i).Lease?
    ensures run[i + 1].consumer.Judging? ==>
      InRange(run[i + 1]) && run[i + 1].slots[run[i + 1].consumer.slot].value == Offered(run, acts, i)
  {
    RunReady(run, acts, i);
    RunJudging(run, acts, i + 1);
  }

  /** What the frame reads as active, when it is in no call, is what it accepted last, and nothing once it cleared it. */
  lemma ActiveIsKept(run: seq<State>, acts: seq<Action>, i: nat)
    requires IsRun(run, acts) && i < |run| && run[i].consumer.ConsumerIdle?
    ensures run[i].active == NONE <==> Kept(run, acts, i) == Null
    ensures run[i].active != NONE ==> InRange(run[i]) && run[i].slots[run[i].active].value == Kept(run, acts, i)
  {
    RunActive(run, acts, i);
  }

  // ---- what is reclaimed ----

  /** An empty slot holds nothing, but for the one being filled. */
  predicate EmptyHoldsNothing(s: State)
    requires InRange(s)
  {
    && (forall i :: 0 <= i < 3 && s.slots[i].state == Empty && !(s.producer.Marking? && s.producer.slot == i) ==> s.slots[i].value == Null)
    && (s.producer.Emptying? ==> s.slots[s.producer.slot].value == Null)
  }

  lemma StepEmpty(s: State, a: Action)
    requires InRange(s) && Enabled(s, a) && EmptyHoldsNothing(s) && InRange(Apply(s, a))
    ensures EmptyHoldsNothing(Apply(s, a))
  {}

  /** No empty slot keeps a publication alive. */
  lemma {:induction false} NothingLeaks(run: seq<State>, acts: seq<Action>, i: nat)
    requires IsRun(run, acts) && i < |run|
    ensures InRange(run[i]) && EmptyHoldsNothing(run[i])
  {
    RunSlots(run, acts, i);
    if i > 0 {
      NothingLeaks(run, acts, i - 1);
      StepEmpty(run[i - 1], acts[i - 1]);
    }
  }

  /** How far ReclaimRetired has come. */
  function Swept(producer: Producer): nat {
    match producer
    case Reclaiming(_, _, i) => i
    case Resetting(_, _, i) => i
    case Emptying(_, _, i) => i
    case _ => 3
  }

  predicate Reclaims(producer: Producer) {
    (producer.Reclaiming? || producer.Resetting? || producer.Emptying?) && producer.offer.Null?
  }

  /** Of what was retired when it began, the slots passed are empty, and the others retired yet. */
  predicate Sweeping(s: State, e: State)
    requires InRange(s) && InRange(e)
  {
    && (Reclaims(e.producer) || e.producer == ProducerIdle)
    && forall i :: 0 <= i < 3 && s.slots[i].state == Retired ==> e.slots[i].state == if i < Swept(e.producer) then Empty else Retired
  }

  lemma ProducerSweeps(s: State, e: State)
    requires InRange(s) && InRange(e) && Sweeping(s, e) && e.producer != ProducerIdle && InRange(StepProducer(e))
    ensures Sweeping(s, StepProducer(e))
  {}

  lemma ConsumerSweeps(s: State, e: State, a: Action)
    requires InRange(s) && InRange(e) && SlotStates(e) && Sweeping(s, e) && Enabled(e, a) && e.producer != ProducerIdle && !a.ProducerStep?
    requires InRange(Apply(e, a))
    ensures Sweeping(s, Apply(e, a))
  {}

  lemma StepSweeping(run: seq<State>, acts: seq<Action>, s: State, i: nat)
    requires IsRun(run, acts) && i < |acts| && InRange(s) && InRange(run[i]) && Sweeping(s, run[i]) && run[i].producer != ProducerIdle
    ensures InRange(run[i + 1]) && Sweeping(s, run[i + 1])
  {
    RunSlots(run, acts, i);
    RunSlots(run, acts, i + 1);
    if acts[i].ProducerStep? { ProducerSweeps(s, run[i]); } else { ConsumerSweeps(s, run[i], acts[i]); }
  }

  lemma {:induction false} SweepingOn(run: seq<State>, acts: seq<Action>, b: nat, j: nat)
    requires IsRun(run, acts) && b < j < |run| && acts[b] == BeginReclaim
    requires forall m :: b < m < j ==> run[m].producer != ProducerIdle
    ensures InRange(run[b]) && InRange(run[j]) && Sweeping(run[b], run[j])
    decreases j
  {
    if b + 1 < j {
      SweepingOn(run, acts, b, j - 1);
      StepSweeping(run, acts, run[b], j - 1);
    } else {
      RunSlots(run, acts, b);
      SweepingBegins(run[b]);
    }
  }

  lemma SweepingBegins(s: State)
    requires InRange(s) && Enabled(s, BeginReclaim)
    ensures InRange(Apply(s, BeginReclaim)) && Sweeping(s, Apply(s, BeginReclaim))
  {}

  /** Whatever the consumer does meanwhile, a ReclaimRetired empties every slot that was retired when it began, and lets its value go. */
  lemma ReclaimedIsEmpty(run: seq<State>, acts: seq<Action>, b: nat, j: nat, i: nat)
    requires IsRun(run, acts) && b < j < |run| && acts[b] == BeginReclaim && i < 3
    requires (forall m :: b < m < j ==> run[m].producer != ProducerIdle) && run[j].producer == ProducerIdle
    ensures InRange(run[b]) && InRange(run[j])
    ensures run[b].slots[i].state == Retired ==> run[j].slots[i] == Slot(Null, Empty)
  {
    SweepingOn(run, acts, b, j);
    NothingLeaks(run, acts, j);
  }

  // ---- no call waits for the other side ----

  /** How far the producer is from the end of its call, by itself. */
  function Distance(producer: Producer): nat {
    match producer
    case ProducerIdle => 0
    case Returning(_, _, _, _) => 1
    case Announcing(_, _, _) => 2
    case Marking(_, _, _) => 3
    case Filling(_, _, _) => 4
    case Scanning(_, _, i) => if i <= 3 then 8 - i else 5
    case Reclaiming(_, _, i) => if i <= 3 then 18 - 3 * i else 9
    case Resetting(_, _, i) => if i < 3 then 17 - 3 * i else 9
    case Emptying(_, _, i) => if i < 3 then 16 - 3 * i else 9
    case Checking(_, _) => 19
    case TakingBack(_, _) => 20
    case Exchanging(_) => 21
  }

  function ConsumerDistance(consumer: Consumer): nat {
    match consumer
    case ConsumerIdle => 0
    case Judging(_) => 3
    case Accepting(_) => 2
    case Refusing(_) => 1
    case Retiring(_) => 1
  }

  /** Every step of a call brings it nearer its end, and nothing the other side does takes it back: calls are wait-free. */
  lemma StepsToTheEnd(s: State, a: Action)
    requires InRange(s) && Enabled(s, a) && InRange(Apply(s, a))
    ensures var s' := Apply(s, a);
      && (a.ProducerStep? ==> Distance(s'.producer) < Distance(s.producer) && s'.consumer == s.consumer)
      && (a.Judge? || a.ConsumerStep? ==> ConsumerDistance(s'.consumer) < ConsumerDistance(s.consumer) && s'.producer == s.producer)
      && (a.BeginSelect? || a.BeginClear? ==> s'.producer == s.producer)
  {}
}
