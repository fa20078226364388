/** A pool's availability wakes (src/BackingPool.cpp): a failed Acquire subscribes, and whatever makes a backing of its class usable
    must wake it. One class of backings, at its limit; the acquirer is one thread, the others return leases, drop pins and run the
    clock's wakes. Each action is one atomic operation, or one backing looked at.

    The clock keeps its promise (RetirementClock): a subscribed point that is reached has its wake run. A readback pin's release
    tells nobody. */
module Availability {

  datatype Place = Leased | Returning | Stacked | Free

  datatype Backing = Backing(place: Place, safeAt: nat, readback: nat, consumers: nat)

  datatype Pc =
    | Idle
    | Pushing(backing: nat)    // the last lease went: about to push it on the return stack
    | Calling(point: nat)      // a clock wake: about to clear the armed point
    | Counting                 // about to count the event
    | Exchanging               // about to take the waiters and wake them

  datatype Acquirer =
    | Resting
    | Taking                                      // the event count is noted: about to take the returns in
    | Reading                                     // about to read the clock
    | Scanning(clock: nat, todo: set<nat>, usable: set<nat>)   // looking at the free backings, then claiming a usable one
    | Rereading                                   // none usable: about to read the clock again, to arm
    | Arming(clock: nat, todo: set<nat>, point: nat)
    | Setting(clock: nat, point: nat)             // about to set the armed point
    | Subscribing(clock: nat, point: nat)         // about to subscribe to the clock
    | Failed                                      // about to push its waiter
    | Checking                                    // about to compare the event count
    | CountingOwn
    | ExchangingOwn

  type Backings = map<nat, Backing>

  datatype State = State(
    backings: Backings,
    completed: nat,
    points: set<nat>,          // clock points subscribed, their wakes not run yet
    armedAt: nat,              // 0: none
    events: nat,
    scanEvents: nat,
    waiters: set<nat>,
    threads: map<nat, Pc>,
    acquirer: Acquirer,
    first: nat,                // history: the clock this Acquire looked with
    second: nat,               // history: the clock it armed with
    dropped: set<nat>,         // history: backings a readback pin of which was released between its two looks at them
    missed: set<nat>,          // history: backings it could have used when it looked to arm, with no event on its way
    lost: set<nat>)            // history: backings missed by an Acquire whose waiter is registered

  datatype Action =
    | ReturnLast(backing: nat)             // the last lease's fetch_sub
    | PushReturned
    | PinConsumer(backing: nat)
    | DropConsumer(backing: nat)
    | PinReadback(backing: nat)
    | DropReadback(backing: nat)
    | Bind(backing: nat, safeAt: nat)      // by a lease
    | Advance(completed: nat)
    | RunPoint(point: nat)
    | ClearArmed
    | CountEvent
    | ExchangeWaiters
    | StartAcquire
    | TakeReturned
    | ReadClock
    | Look(backing: nat)
    | ClaimUsable(backing: nat)
    | EndScan
    | ReadAgain
    | LookToArm(backing: nat)
    | EndArming
    | SetArmed
    | SubscribeClock
    | PushWaiter(waiter: nat)
    | GiveUp
    | CheckEvents
    | CountOwn
    | ExchangeOwn

  predicate Reusable(b: Backing, completed: nat) {
    b.place.Free? && b.safeAt <= completed && b.readback == 0 && b.consumers == 0
  }

  function FreeOnes(bs: Backings): set<nat> {
    set b | b in bs && bs[b].place == Free
  }

  /** When the clock would let a backing go, as ArmAvailability reckons it; 0 when the clock does not hold it. */
  function ArmPoint(b: Backing, clock: nat): nat {
    if b.safeAt > clock then b.safeAt else if b.readback != 0 then clock + 1 else 0
  }

  function Sooner(point: nat, at: nat): nat {
    if at != 0 && (point == 0 || at < point) then at else point
  }

  /** An event is on its way that has not been counted yet. */
  predicate Uncounted(threads: map<nat, Pc>, points: set<nat>, completed: nat) {
    || (exists t :: t in threads && (threads[t].Pushing? || threads[t].Calling? || threads[t].Counting?))
    || (exists p :: p in points && p <= completed)
  }

  /** The acquirer has looked at the backing once, and not yet to arm. */
  predicate Between(a: Acquirer, b: nat) {
    (a.Scanning? && b !in a.todo && b !in a.usable) || a.Rereading? || (a.Arming? && b in a.todo)
  }

  predicate Enabled(s: State, t: nat, a: Action) {
    && t in s.threads
    && var pc := s.threads[t];
       match a
       case ReturnLast(b) => pc == Idle && b in s.backings && s.backings[b].place == Leased
       case PushReturned => pc.Pushing? && pc.backing in s.backings
       case PinConsumer(b) => b in s.backings
       case DropConsumer(b) => pc == Idle && b in s.backings && s.backings[b].consumers > 0
       case PinReadback(b) => b in s.backings
       case DropReadback(b) => b in s.backings && s.backings[b].readback > 0
       case Bind(b, _) => b in s.backings && s.backings[b].place == Leased
       case Advance(_) => true
       case RunPoint(p) => pc == Idle && p in s.points && p <= s.completed
       case ClearArmed => pc.Calling?
       case CountEvent => pc.Counting?
       case ExchangeWaiters => pc.Exchanging?
       case StartAcquire => s.acquirer.Resting?
       case TakeReturned => s.acquirer.Taking?
       case ReadClock => s.acquirer.Reading?
       case Look(b) => s.acquirer.Scanning? && b in s.acquirer.todo && b in s.backings
       case ClaimUsable(b) => s.acquirer.Scanning? && s.acquirer.todo == {} && b in s.acquirer.usable && b in s.backings
       case EndScan => s.acquirer.Scanning? && s.acquirer.todo == {} && s.acquirer.usable == {}
       case ReadAgain => s.acquirer.Rereading?
       case LookToArm(b) => s.acquirer.Arming? && b in s.acquirer.todo && b in s.backings
       case EndArming => s.acquirer.Arming? && s.acquirer.todo == {}
       case SetArmed => s.acquirer.Setting?
       case SubscribeClock => s.acquirer.Subscribing?
       case PushWaiter(w) => s.acquirer.Failed? && w !in s.waiters
       case GiveUp => s.acquirer.Failed?
       case CheckEvents => s.acquirer.Checking?
       case CountOwn => s.acquirer.CountingOwn?
       case ExchangeOwn => s.acquirer.ExchangingOwn?
  }

  function Goto(s: State, t: nat, pc: Pc): State {
    s.(threads := s.threads[t := pc])
  }

  function With(s: State, b: nat, backing: Backing): State {
    s.(backings := s.backings[b := backing])
  }

  function TakenIn(bs: Backings): Backings {
    map b | b in bs :: if bs[b].place == Stacked then bs[b].(place := Free) else bs[b]
  }

  /** One free backing looked at: kept to be claimed when usable, else passed over. */
  function LookStep(s: State, b: nat): State
    requires s.acquirer.Scanning? && b in s.backings
  {
    var a := s.acquirer;
    s.(acquirer := Scanning(a.clock, a.todo - {b}, if Reusable(s.backings[b], a.clock) then a.usable + {b} else a.usable))
  }

  /** A usable one claimed: leased, unless a consumer pinned it since the look (PinClaim). */
  function ClaimStep(s: State, b: nat): State
    requires s.acquirer.Scanning? && b in s.backings
  {
    var a := s.acquirer;
    if s.backings[b].consumers > 0 then s.(acquirer := Scanning(a.clock, a.todo, a.usable - {b}))
    else With(s, b, s.backings[b].(place := Leased)).(acquirer := Resting)
  }

  /** One free backing looked at to arm. */
  function ArmStep(s: State, b: nat): State
    requires s.acquirer.Arming? && b in s.backings
  {
    var clock := s.acquirer.clock;
    s.(acquirer := Arming(clock, s.acquirer.todo - {b}, Sooner(s.acquirer.point, ArmPoint(s.backings[b], clock))),
       missed := if Reusable(s.backings[b], clock) && s.events == s.scanEvents && !Uncounted(s.threads, s.points, s.completed)
                 then s.missed + {b} else s.missed)
  }

  function Apply(s: State, t: nat, a: Action): State
    requires Enabled(s, t, a)
  {
    var pc := s.threads[t];
    match a
    case ReturnLast(b) => Goto(With(s, b, s.backings[b].(place := Returning)), t, Pushing(b))
    case PushReturned => Goto(With(s, pc.backing, s.backings[pc.backing].(place := Stacked)), t, Counting)
    case PinConsumer(b) => With(s, b, s.backings[b].(consumers := s.backings[b].consumers + 1))
    case DropConsumer(b) =>
      var dropped := With(s, b, s.backings[b].(consumers := s.backings[b].consumers - 1));
      if s.backings[b].consumers == 1 then Goto(dropped, t, Counting) else dropped
    case PinReadback(b) => With(s, b, s.backings[b].(readback := s.backings[b].readback + 1))
    case DropReadback(b) =>
      With(s, b, s.backings[b].(readback := s.backings[b].readback - 1))
        .(dropped := if Between(s.acquirer, b) then s.dropped + {b} else s.dropped)
    case Bind(b, safeAt) => if s.backings[b].safeAt < safeAt then With(s, b, s.backings[b].(safeAt := safeAt)) else s
    case Advance(completed) => if s.completed < completed then s.(completed := completed) else s
    case RunPoint(p) => Goto(s.(points := s.points - {p}), t, Calling(p))
    case ClearArmed => Goto(s.(armedAt := if s.armedAt == pc.point then 0 else s.armedAt), t, Counting)
    case CountEvent => Goto(s.(events := s.events + 1), t, Exchanging)
    case ExchangeWaiters => Goto(s.(waiters := {}, lost := {}), t, Idle)
    case StartAcquire => s.(acquirer := Taking, scanEvents := s.events, missed := {}, dropped := {})
    case TakeReturned => s.(acquirer := Reading, backings := TakenIn(s.backings))
    case ReadClock => s.(acquirer := Scanning(s.completed, FreeOnes(s.backings), {}), first := s.completed)
    case Look(b) => LookStep(s, b)
    case ClaimUsable(b) => ClaimStep(s, b)
    case EndScan => s.(acquirer := Rereading)
    case ReadAgain => s.(acquirer := Arming(s.completed, FreeOnes(s.backings), 0), second := s.completed)
    case LookToArm(b) => ArmStep(s, b)
    case EndArming => s.(acquirer := if s.acquirer.point == 0 then Failed else Setting(s.acquirer.clock, s.acquirer.point))
    case SetArmed =>
      var point := s.acquirer.point;
      if s.armedAt != 0 && s.armedAt <= point then s.(acquirer := Failed)
      else s.(armedAt := point, acquirer := Subscribing(s.acquirer.clock, point))
    case SubscribeClock => s.(points := s.points + {s.acquirer.point}, acquirer := Failed)
    case PushWaiter(w) => s.(waiters := s.waiters + {w}, acquirer := Checking, lost := s.lost + s.missed)
    case GiveUp => s.(acquirer := Resting)
    case CheckEvents => s.(acquirer := if s.events != s.scanEvents then CountingOwn else Resting)
    case CountOwn => s.(events := s.events + 1, acquirer := ExchangingOwn)
    case ExchangeOwn => s.(waiters := {}, lost := {}, acquirer := Resting)
  }

  // ---- the invariant ----

  /** Some thread will still take the waiters. */
  predicate InFlight(threads: map<nat, Pc>, points: set<nat>, completed: nat, acquirer: Acquirer, events: nat, scanEvents: nat) {
    || Uncounted(threads, points, completed)
    || (exists t :: t in threads && threads[t].Exchanging?)
    || acquirer.CountingOwn? || acquirer.ExchangingOwn? || (acquirer.Checking? && events != scanEvents)
  }

  predicate NoneStacked(bs: Backings) {
    forall b :: b in bs ==> bs[b].place != Stacked
  }

  /** The clock will wake by the time it would let the backing go, or at its next tick. */
  predicate ArmedFor(b: Backing, points: set<nat>, completed: nat) {
    exists p :: p in points && completed < p && (p <= b.safeAt || p <= completed + 1)
  }

  /** A free backing that becomes usable will tell: its pin's drop, or the clock. */
  predicate Covered(b: Backing, points: set<nat>, completed: nat) {
    b.place == Free ==> b.consumers > 0 || ArmedFor(b, points, completed)
  }

  predicate AllCovered(bs: Backings, points: set<nat>, completed: nat, but: set<nat>) {
    forall b :: b in bs && b !in but ==> Covered(bs[b], points, completed)
  }

  /** Why a look at this clock refuses the backing. */
  predicate Refused(b: Backing, clock: nat) {
    b.place == Free ==> b.consumers > 0 || clock < b.safeAt || b.readback > 0
  }

  /** What was looked at once is refused still, unless its readback pin went since. */
  predicate RefusedAll(bs: Backings, a: Acquirer, first: nat, dropped: set<nat>) {
    forall b :: b in bs && Between(a, b) && b !in dropped ==> Refused(bs[b], first)
  }

  /** A point this early covers the backing, while the clock still stands before it. */
  predicate PointFor(b: Backing, clock: nat, point: nat) {
    b.place == Free ==> b.consumers > 0 || (clock < point && (point <= b.safeAt || point <= clock + 1))
  }

  predicate PointForAll(bs: Backings, clock: nat, point: nat, but: set<nat>) {
    forall b :: b in bs && b !in but ==> PointFor(bs[b], clock, point)
  }

  /** The backing became usable between the two looks at it: the clock passed its point, or its readback pin went. */
  predicate Slipped(b: Backing, first: nat, second: nat, dropped: bool) {
    b.place.Free? && b.safeAt <= second && (first < b.safeAt || dropped)
  }

  /** An Acquire misses only what slipped between its looks. */
  predicate MissedSlipped(bs: Backings, missed: set<nat>, first: nat, second: nat, dropped: set<nat>) {
    forall b :: b in missed ==> b in bs && Slipped(bs[b], first, second, b in dropped)
  }

  predicate Looks(a: Acquirer) {
    a.Taking? || a.Reading? || a.Scanning? || a.Rereading?
  }

  /** What the acquirer's look so far says, while no event since it began is counted or on its way. */
  predicate LookHolds(bs: Backings, points: set<nat>, completed: nat, a: Acquirer, missed: set<nat>, first: nat, dropped: set<nat>) {
    match a
    case Resting => true
    case Taking => true
    case Reading => NoneStacked(bs)
    case Scanning(clock, _, _) => NoneStacked(bs) && clock == first && RefusedAll(bs, a, first, dropped)
    case Rereading => NoneStacked(bs) && RefusedAll(bs, a, first, dropped)
    case Arming(clock, todo, point) =>
      && NoneStacked(bs) && clock <= completed && (point != 0 ==> clock < point)
      && PointForAll(bs, clock, point, todo + missed) && RefusedAll(bs, a, first, dropped)
    case Setting(clock, point) => NoneStacked(bs) && clock <= completed && clock < point && PointForAll(bs, clock, point, missed)
    case Subscribing(clock, point) => NoneStacked(bs) && clock <= completed && clock < point && PointForAll(bs, clock, point, missed)
    case Failed => NoneStacked(bs) && AllCovered(bs, points, completed, missed)
    case Checking => NoneStacked(bs) && AllCovered(bs, points, completed, missed)
    case _ => true
  }

  /** The armed point is subscribed, or about to be, or its wake is running. */
  predicate ArmedIsReal(armedAt: nat, points: set<nat>, threads: map<nat, Pc>, a: Acquirer) {
    || armedAt == 0 || armedAt in points || (a.Subscribing? && a.point == armedAt)
    || (exists t :: t in threads && threads[t] == Calling(armedAt))
  }

  /** A thread about to push a backing has it to itself. */
  predicate Returners(bs: Backings, threads: map<nat, Pc>) {
    && (forall t :: t in threads && threads[t].Pushing? ==> threads[t].backing in bs && bs[threads[t].backing].place == Returning)
    && (forall t, u :: t in threads && u in threads && threads[t].Pushing? && threads[u] == threads[t] ==> t == u)
  }

  /** Only the acquirer takes a free backing: what it would claim is free still. */
  predicate UsableFree(bs: Backings, a: Acquirer) {
    a.Scanning? ==> forall b :: b in a.usable ==> b in bs && bs[b].place == Free
  }

  ghost predicate Inv(s: State) {
    && s.scanEvents <= s.events && Returners(s.backings, s.threads) && UsableFree(s.backings, s.acquirer)
    && ArmedIsReal(s.armedAt, s.points, s.threads, s.acquirer)
    && (s.events == s.scanEvents && !Uncounted(s.threads, s.points, s.completed) ==>
          LookHolds(s.backings, s.points, s.completed, s.acquirer, s.missed, s.first, s.dropped))
    && (Looks(s.acquirer) ==> s.missed == {}) && (s.acquirer.Arming? ==> s.acquirer.clock == s.second)
    && MissedSlipped(s.backings, s.missed, s.first, s.second, s.dropped)
    && (s.waiters != {} && !InFlight(s.threads, s.points, s.completed, s.acquirer, s.events, s.scanEvents) ==>
          NoneStacked(s.backings) && AllCovered(s.backings, s.points, s.completed, s.lost))
  }

  // ---- what the other threads keep ----

  /** A step to an uncounted event: nothing more is owed, if the armed point stays real. */
  lemma OnItsWay(s: State, s': State, t: nat)
    requires Inv(s) && t in s'.threads && (s'.threads[t].Pushing? || s'.threads[t].Calling? || s'.threads[t].Counting?)
    requires s'.scanEvents == s.scanEvents && s'.events == s.events && s'.acquirer == s.acquirer && s'.second == s.second
    requires s'.missed == s.missed && MissedSlipped(s'.backings, s'.missed, s'.first, s'.second, s'.dropped)
    requires ArmedIsReal(s'.armedAt, s'.points, s'.threads, s'.acquirer)
    requires Returners(s'.backings, s'.threads) && UsableFree(s'.backings, s'.acquirer)
    ensures Inv(s')
  {
    assert Uncounted(s'.threads, s'.points, s'.completed);
  }

  lemma OthersCalling(s: State, t: nat, pc: Pc)
    requires t in s.threads && !s.threads[t].Calling? && ArmedIsReal(s.armedAt, s.points, s.threads, s.acquirer)
    ensures ArmedIsReal(s.armedAt, s.points, s.threads[t := pc], s.acquirer)
  {
    if u :| u in s.threads && s.threads[u] == Calling(s.armedAt) {
      assert s.threads[t := pc][u] == Calling(s.armedAt);
    }
  }

  lemma ReturnInv(s: State, t: nat, b: nat)
    requires Inv(s) && Enabled(s, t, ReturnLast(b))
    ensures Inv(Apply(s, t, ReturnLast(b)))
  {
    OthersCalling(s, t, Pushing(b));
    OnItsWay(s, Apply(s, t, ReturnLast(b)), t);
  }

  lemma PushInv(s: State, t: nat)
    requires Inv(s) && Enabled(s, t, PushReturned)
    ensures Inv(Apply(s, t, PushReturned))
  {
    OthersCalling(s, t, Counting);
    OnItsWay(s, Apply(s, t, PushReturned), t);
  }

  lemma RunPointInv(s: State, t: nat, p: nat)
    requires Inv(s) && Enabled(s, t, RunPoint(p))
    ensures Inv(Apply(s, t, RunPoint(p)))
  {
    var s' := Apply(s, t, RunPoint(p));
    OthersCalling(s, t, Calling(p));
    assert s'.threads[t] == Calling(p);
    OnItsWay(s, s', t);
  }

  lemma ClearInv(s: State, t: nat)
    requires Inv(s) && Enabled(s, t, ClearArmed)
    ensures Inv(Apply(s, t, ClearArmed))
  {
    var s' := Apply(s, t, ClearArmed);
    if s'.armedAt != 0 {
      if u :| u in s.threads && s.threads[u] == Calling(s.armedAt) {
        assert s'.threads[u] == Calling(s.armedAt);
      }
    }
    OnItsWay(s, s', t);
  }

  /** An event counted since the look voids it; the thread goes on to take the waiters. */
  lemma CountInv(s: State, t: nat)
    requires Inv(s) && Enabled(s, t, CountEvent)
    ensures Inv(Apply(s, t, CountEvent))
  {
    OthersCalling(s, t, Exchanging);
    assert Apply(s, t, CountEvent).threads[t] == Exchanging;
  }

  lemma ExchangeInv(s: State, t: nat)
    requires Inv(s) && Enabled(s, t, ExchangeWaiters)
    ensures Inv(Apply(s, t, ExchangeWaiters))
  {
    var s' := Apply(s, t, ExchangeWaiters);
    OthersCalling(s, t, Idle);
    if Uncounted(s.threads, s.points, s.completed) { SameUncounted(s, t, Idle); }
  }

  lemma SameUncounted(s: State, t: nat, pc: Pc)
    requires t in s.threads && !(s.threads[t].Pushing? || s.threads[t].Calling? || s.threads[t].Counting?)
    requires Uncounted(s.threads, s.points, s.completed)
    ensures Uncounted(s.threads[t := pc], s.points, s.completed)
  {
    if u :| u in s.threads && (s.threads[u].Pushing? || s.threads[u].Calling? || s.threads[u].Counting?) {
      assert s.threads[t := pc][u] == s.threads[u];
    }
  }

  /** A backing changed under the look: what the look and the waiters rely on only gets truer. */
  lemma BackingChanged(s: State, b: nat, backing: Backing, dropped: set<nat>)
    requires Inv(s) && b in s.backings && Changes(s.backings[b], backing) && s.dropped <= dropped
    requires backing.readback < s.backings[b].readback && Between(s.acquirer, b) ==> b in dropped
    ensures Inv(With(s, b, backing).(dropped := dropped))
  {
    var bs, bs' := s.backings, s.backings[b := backing];
    if s.events == s.scanEvents && !Uncounted(s.threads, s.points, s.completed) {
      LookChanged(s, b, backing, dropped);
    }
    if AllCovered(bs, s.points, s.completed, s.lost) {
      assert forall q :: q in bs' && q !in s.lost ==> Covered(bs[q], s.points, s.completed);
    }
    assert NoneStacked(bs) ==> NoneStacked(bs');
    forall q | q in s.missed ensures q in bs' && Slipped(bs'[q], s.first, s.second, q in dropped) {
      assert Slipped(bs[q], s.first, s.second, q in s.dropped);
    }
  }

  /** What can happen to a backing that stays where it is and tells nobody. */
  predicate Changes(former: Backing, backing: Backing) {
    && backing.place == former.place && (backing.place == Free ==> backing.safeAt == former.safeAt)
    && (former.consumers > 0 ==> backing.consumers > 0)
  }

  lemma LookChanged(s: State, b: nat, backing: Backing, dropped: set<nat>)
    requires b in s.backings && Changes(s.backings[b], backing) && s.dropped <= dropped
    requires backing.readback < s.backings[b].readback && Between(s.acquirer, b) ==> b in dropped
    requires LookHolds(s.backings, s.points, s.completed, s.acquirer, s.missed, s.first, s.dropped)
    ensures LookHolds(s.backings[b := backing], s.points, s.completed, s.acquirer, s.missed, s.first, dropped)
  {
    var bs, bs' := s.backings, s.backings[b := backing];
    assert NoneStacked(bs) ==> NoneStacked(bs');
    if AllCovered(bs, s.points, s.completed, s.missed) {
      assert forall q :: q in bs' && q !in s.missed ==> Covered(bs[q], s.points, s.completed);
    }
    forall clock, point, but | PointForAll(bs, clock, point, but) ensures PointForAll(bs', clock, point, but) {
      assert forall q :: q in bs' && q !in but ==> PointFor(bs[q], clock, point);
    }
    if RefusedAll(bs, s.acquirer, s.first, s.dropped) {
      forall q | q in bs' && Between(s.acquirer, q) && q !in dropped ensures Refused(bs'[q], s.first) {
        assert Refused(bs[q], s.first);
      }
    }
  }

  lemma DropConsumerInv(s: State, t: nat, b: nat)
    requires Inv(s) && Enabled(s, t, DropConsumer(b))
    ensures Inv(Apply(s, t, DropConsumer(b)))
  {
    var less := s.backings[b].(consumers := s.backings[b].consumers - 1);
    if s.backings[b].consumers == 1 {
      OthersCalling(s, t, Counting);
      OnItsWay(s, Apply(s, t, DropConsumer(b)), t);
    } else {
      BackingChanged(s, b, less, s.dropped);
      assert Apply(s, t, DropConsumer(b)) == With(s, b, less).(dropped := s.dropped);
    }
  }

  lemma PinConsumerInv(s: State, t: nat, b: nat)
    requires Inv(s) && Enabled(s, t, PinConsumer(b))
    ensures Inv(Apply(s, t, PinConsumer(b)))
  {
    var more := s.backings[b].(consumers := s.backings[b].consumers + 1);
    BackingChanged(s, b, more, s.dropped);
    assert With(s, b, more) == With(s, b, more).(dropped := s.dropped);
  }

  lemma PinReadbackInv(s: State, t: nat, b: nat)
    requires Inv(s) && Enabled(s, t, PinReadback(b))
    ensures Inv(Apply(s, t, PinReadback(b)))
  {
    var more := s.backings[b].(readback := s.backings[b].readback + 1);
    BackingChanged(s, b, more, s.dropped);
    assert With(s, b, more) == With(s, b, more).(dropped := s.dropped);
  }

  lemma DropReadbackInv(s: State, t: nat, b: nat)
    requires Inv(s) && Enabled(s, t, DropReadback(b))
    ensures Inv(Apply(s, t, DropReadback(b)))
  {
    BackingChanged(s, b, s.backings[b].(readback := s.backings[b].readback - 1),
      if Between(s.acquirer, b) then s.dropped + {b} else s.dropped);
  }

  lemma BindInv(s: State, t: nat, b: nat, safeAt: nat)
    requires Inv(s) && Enabled(s, t, Bind(b, safeAt))
    ensures Inv(Apply(s, t, Bind(b, safeAt)))
  {
    var later := s.backings[b].(safeAt := safeAt);
    BackingChanged(s, b, later, s.dropped);
    assert With(s, b, later) == With(s, b, later).(dropped := s.dropped);
  }

  /** The clock moves on: what it passed is on its way, what it did not still covers. */
  lemma AdvanceCovers(bs: Backings, points: set<nat>, completed: nat, later: nat, but: set<nat>)
    requires AllCovered(bs, points, completed, but) && completed <= later && forall p :: p in points ==> later < p
    ensures AllCovered(bs, points, later, but)
  {
    forall b | b in bs && b !in but ensures Covered(bs[b], points, later) {
      assert Covered(bs[b], points, completed);
      if ArmedFor(bs[b], points, completed) {
        var p :| p in points && completed < p && (p <= bs[b].safeAt || p <= completed + 1);
        assert p in points && later < p;
      }
    }
  }

  lemma AdvanceInv(s: State, t: nat, later: nat)
    requires Inv(s) && Enabled(s, t, Advance(later))
    ensures Inv(Apply(s, t, Advance(later)))
  {
    if s.completed < later && !Uncounted(s.threads, s.points, later) {
      assert !Uncounted(s.threads, s.points, s.completed);
      forall but | AllCovered(s.backings, s.points, s.completed, but) ensures AllCovered(s.backings, s.points, later, but) {
        AdvanceCovers(s.backings, s.points, s.completed, later, but);
      }
    }
  }

  // ---- what the acquirer's steps keep ----

  lemma TakeInv(s: State, t: nat)
    requires Inv(s) && Enabled(s, t, TakeReturned)
    ensures Inv(Apply(s, t, TakeReturned))
  {
    if NoneStacked(s.backings) { assert TakenIn(s.backings) == s.backings; }
  }

  lemma StartInv(s: State, t: nat, a: Action)
    requires Inv(s) && Enabled(s, t, a) && (a.StartAcquire? || a.ReadClock? || a.EndScan? || a.ReadAgain? || a.GiveUp? || a.CheckEvents?)
    ensures Inv(Apply(s, t, a))
  {
    if a.ReadClock? || a.ReadAgain? {
      assert forall b :: b in s.backings && b !in FreeOnes(s.backings) ==> s.backings[b].place != Free;
    }
  }

  lemma LookInv(s: State, t: nat, b: nat)
    requires Inv(s) && Enabled(s, t, Look(b))
    ensures Inv(Apply(s, t, Look(b)))
  {}

  lemma ClaimInv(s: State, t: nat, b: nat)
    requires Inv(s) && Enabled(s, t, ClaimUsable(b))
    ensures Inv(Apply(s, t, ClaimUsable(b)))
  {
    var s' := Apply(s, t, ClaimUsable(b));
    if AllCovered(s.backings, s.points, s.completed, s.lost) {
      assert forall q :: q in s'.backings && q !in s.lost ==> Covered(s.backings[q], s.points, s.completed);
    }
  }

  /** A look to arm either finds the clock's point for the backing, or misses it, and then the backing slipped. */
  lemma ArmLook(s: State, b: nat)
    requires s.acquirer.Arming? && b in s.acquirer.todo && b in s.backings && s.events == s.scanEvents
    requires !Uncounted(s.threads, s.points, s.completed)
    requires LookHolds(s.backings, s.points, s.completed, s.acquirer, s.missed, s.first, s.dropped)
    ensures var s' := ArmStep(s, b); LookHolds(s'.backings, s'.points, s'.completed, s'.acquirer, s'.missed, s'.first, s'.dropped)
    ensures Reusable(s.backings[b], s.acquirer.clock) ==> Slipped(s.backings[b], s.first, s.acquirer.clock, b in s.dropped)
  {
    var clock, s' := s.acquirer.clock, ArmStep(s, b);
    forall q | q in s.backings && q !in s'.acquirer.todo + s'.missed ensures PointFor(s.backings[q], clock, s'.acquirer.point) {
      if q != b { assert PointFor(s.backings[q], clock, s.acquirer.point); }
    }
    assert b !in s.dropped ==> Refused(s.backings[b], s.first);
  }

  lemma ArmInv(s: State, t: nat, b: nat)
    requires Inv(s) && Enabled(s, t, LookToArm(b))
    ensures Inv(Apply(s, t, LookToArm(b)))
  {
    if s.events == s.scanEvents && !Uncounted(s.threads, s.points, s.completed) { ArmLook(s, b); }
  }

  lemma EndArmingInv(s: State, t: nat)
    requires Inv(s) && Enabled(s, t, EndArming)
    ensures Inv(Apply(s, t, EndArming))
  {
    if s.events == s.scanEvents && !Uncounted(s.threads, s.points, s.completed) {
      assert s.acquirer.todo + s.missed == s.missed;
      if s.acquirer.point == 0 {
        forall b | b in s.backings && b !in s.missed ensures Covered(s.backings[b], s.points, s.completed) {
          assert PointFor(s.backings[b], s.acquirer.clock, s.acquirer.point);
        }
      }
    }
  }

  /** A point armed already, no later than this one, covers what this one would. */
  lemma PointCovers(bs: Backings, points: set<nat>, completed: nat, clock: nat, point: nat, p: nat, but: set<nat>)
    requires PointForAll(bs, clock, point, but) && clock <= completed && p in points && completed < p <= point
    ensures AllCovered(bs, points, completed, but)
  {
    forall b | b in bs && b !in but ensures Covered(bs[b], points, completed) {
      assert PointFor(bs[b], clock, point);
    }
  }

  lemma SetInv(s: State, t: nat)
    requires Inv(s) && Enabled(s, t, SetArmed)
    ensures Inv(Apply(s, t, SetArmed))
  {
    var point := s.acquirer.point;
    if s.events == s.scanEvents && !Uncounted(s.threads, s.points, s.completed) && s.armedAt != 0 && s.armedAt <= point {
      assert s.armedAt in s.points;
      PointCovers(s.backings, s.points, s.completed, s.acquirer.clock, point, s.armedAt, s.missed);
    }
  }

  lemma MorePoints(bs: Backings, points: set<nat>, completed: nat, p: nat, but: set<nat>)
    requires AllCovered(bs, points, completed, but)
    ensures AllCovered(bs, points + {p}, completed, but)
  {
    forall b | b in bs && b !in but ensures Covered(bs[b], points + {p}, completed) {
      assert Covered(bs[b], points, completed);
      if ArmedFor(bs[b], points, completed) {
        var q :| q in points && completed < q && (q <= bs[b].safeAt || q <= completed + 1);
        assert q in points + {p};
      }
    }
  }

  lemma SubscribeInv(s: State, t: nat)
    requires Inv(s) && Enabled(s, t, SubscribeClock)
    ensures Inv(Apply(s, t, SubscribeClock))
  {
    var s', point := Apply(s, t, SubscribeClock), s.acquirer.point;
    if Uncounted(s.threads, s.points, s.completed) { assert Uncounted(s'.threads, s'.points, s'.completed); }
    assert point in s'.points;
    if !Uncounted(s'.threads, s'.points, s'.completed) && s.events == s.scanEvents {
      PointCovers(s.backings, s'.points, s.completed, s.acquirer.clock, point, point, s.missed);
    }
    if AllCovered(s.backings, s.points, s.completed, s.lost) { MorePoints(s.backings, s.points, s.completed, point, s.lost); }
  }

  lemma PushWaiterInv(s: State, t: nat, a: Action)
    requires Inv(s) && Enabled(s, t, a) && (a.PushWaiter? || a.CountOwn? || a.ExchangeOwn?)
    ensures Inv(Apply(s, t, a))
  {}

  lemma OtherStepInv(s: State, t: nat, a: Action)
    requires Inv(s) && Enabled(s, t, a)
    requires a.ReturnLast? || a.PushReturned? || a.DropConsumer? || a.Advance? || a.RunPoint? || a.ClearArmed? || a.CountEvent?
      || a.ExchangeWaiters? || a.PinConsumer? || a.PinReadback? || a.DropReadback? || a.Bind?
    ensures Inv(Apply(s, t, a))
  {
    match a
    case ReturnLast(b) => ReturnInv(s, t, b);
    case PushReturned => PushInv(s, t);
    case DropConsumer(b) => DropConsumerInv(s, t, b);
    case RunPoint(p) => RunPointInv(s, t, p);
    case ClearArmed => ClearInv(s, t);
    case CountEvent => CountInv(s, t);
    case ExchangeWaiters => ExchangeInv(s, t);
    case PinConsumer(b) => PinConsumerInv(s, t, b);
    case PinReadback(b) => PinReadbackInv(s, t, b);
    case DropReadback(b) => DropReadbackInv(s, t, b);
    case Bind(b, safeAt) => BindInv(s, t, b, safeAt);
    case Advance(later) => AdvanceInv(s, t, later);
  }

  lemma StepInv(s: State, t: nat, a: Action)
    requires Inv(s) && Enabled(s, t, a)
    ensures Inv(Apply(s, t, a))
  {
    match a
    case TakeReturned => TakeInv(s, t);
    case Look(b) => LookInv(s, t, b);
    case ClaimUsable(b) => ClaimInv(s, t, b);
    case LookToArm(b) => ArmInv(s, t, b);
    case EndArming => EndArmingInv(s, t);
    case SetArmed => SetInv(s, t);
    case SubscribeClock => SubscribeInv(s, t);
    case PushWaiter(_) => PushWaiterInv(s, t, a);
    case CountOwn => PushWaiterInv(s, t, a);
    case ExchangeOwn => PushWaiterInv(s, t, a);
    case StartAcquire => StartInv(s, t, a);
    case ReadClock => StartInv(s, t, a);
    case EndScan => StartInv(s, t, a);
    case ReadAgain => StartInv(s, t, a);
    case GiveUp => StartInv(s, t, a);
    case CheckEvents => StartInv(s, t, a);
    case _ => OtherStepInv(s, t, a);
  }

  // ---- runs ----

  predicate Init(s: State) {
    && (forall b :: b in s.backings ==> s.backings[b].place == Leased)
    && s.points == {} && s.armedAt == 0 && s.events == 0 && s.scanEvents == 0 && s.waiters == {} && s.acquirer == Resting
    && (forall t :: t in s.threads ==> s.threads[t] == Idle) && s.missed == {} && s.lost == {}
  }

  datatype Step = Step(thread: nat, action: Action)

  predicate IsRun(run: seq<State>, steps: seq<Step>) {
    && |run| == |steps| + 1 && Init(run[0])
    && forall i :: 0 <= i < |steps| ==>
         Enabled(run[i], steps[i].thread, steps[i].action) && run[i + 1] == Apply(run[i], steps[i].thread, steps[i].action)
  }

  lemma {:induction false} RunInv(run: seq<State>, steps: seq<Step>, i: nat)
    requires IsRun(run, steps) && i < |run|
    ensures Inv(run[i])
  {
    if i > 0 {
      RunInv(run, steps, i - 1);
      StepInv(run[i - 1], steps[i - 1].thread, steps[i - 1].action);
    }
  }

  predicate Quiet(s: State) {
    !InFlight(s.threads, s.points, s.completed, s.acquirer, s.events, s.scanEvents)
  }

  /** No wake is lost but for what slipped: while a subscriber waits and no event is on its way, a backing no Acquire missed is not usable
      unless the clock's next tick will wake it; held back by the clock or a readback pin, it has a clock wake no later than its own
      point or the next tick. */
  lemma NoWakeIsLost(run: seq<State>, steps: seq<Step>, i: nat, b: nat)
    requires IsRun(run, steps) && i < |run| && run[i].waiters != {} && Quiet(run[i])
    requires b in run[i].backings && b !in run[i].lost
    ensures run[i].backings[b].place != Stacked
    ensures Reusable(run[i].backings[b], run[i].completed) ==> run[i].completed + 1 in run[i].points
    ensures var backing := run[i].backings[b];
      backing.place == Free && backing.consumers == 0 ==>
        exists p :: p in run[i].points && run[i].completed < p && (p <= backing.safeAt || p == run[i].completed + 1)
  {
    RunInv(run, steps, i);
    var backing := run[i].backings[b];
    assert Covered(backing, run[i].points, run[i].completed);
    if backing.place == Free && backing.consumers == 0 {
      var p :| p in run[i].points && run[i].completed < p && (p <= backing.safeAt || p <= run[i].completed + 1);
    }
  }

  predicate Unpinned(b: Backing) {
    b.readback == 0 && b.consumers == 0
  }

  /** In every interleaving, a look to arm misses a backing exactly when it slipped between the two looks at it, is held by no pin, and
      no event is counted or on its way. */
  lemma MissesExactlyWhatSlipped(run: seq<State>, steps: seq<Step>, i: nat)
    requires IsRun(run, steps) && i < |steps| && steps[i].action.LookToArm?
    ensures var s, b := run[i], steps[i].action.backing;
      b !in s.missed ==>
        (b in run[i + 1].missed <==>
           && s.events == s.scanEvents && !Uncounted(s.threads, s.points, s.completed)
           && Unpinned(s.backings[b]) && Slipped(s.backings[b], s.first, s.second, b in s.dropped))
  {
    RunInv(run, steps, i);
    var s, b := run[i], steps[i].action.backing;
    if s.events == s.scanEvents && !Uncounted(s.threads, s.points, s.completed) { ArmLook(s, b); }
  }

  lemma NextLost(run: seq<State>, steps: seq<Step>, n: nat, b: nat)
    requires IsRun(run, steps) && n < |steps| && b in run[n + 1].lost
    ensures !steps[n].action.ExchangeWaiters? && !steps[n].action.ExchangeOwn?
    ensures b in run[n].lost || (steps[n].action.PushWaiter? && b in run[n].missed)
  {
    assert run[n + 1] == Apply(run[n], steps[n].thread, steps[n].action);
  }

  /** What was lost slipped between the looks of an Acquire that subscribed, and nobody was woken since. */
  lemma {:induction false} LostSlipped(run: seq<State>, steps: seq<Step>, i: nat, b: nat) returns (j: nat)
    requires IsRun(run, steps) && i < |run| && b in run[i].lost
    ensures j < i && steps[j].action.PushWaiter? && b in run[j].missed
    ensures forall k :: j < k < i ==> !steps[k].action.ExchangeWaiters? && !steps[k].action.ExchangeOwn?
    ensures b in run[j].backings && Slipped(run[j].backings[b], run[j].first, run[j].second, b in run[j].dropped)
  {
    assert i > 0;
    NextLost(run, steps, i - 1, b);
    if b in run[i - 1].lost {
      j := LostSlipped(run, steps, i - 1, b);
    } else {
      j := i - 1;
      RunInv(run, steps, j);
    }
  }

  /** So a run each of whose subscribing Acquires read one clock, and saw no readback pin go between its looks, loses no wake. */
  lemma OneReadingLosesNothing(run: seq<State>, steps: seq<Step>, i: nat)
    requires IsRun(run, steps) && i < |run|
    requires forall j :: 0 <= j < i && steps[j].action.PushWaiter? ==> run[j].first == run[j].second && run[j].dropped == {}
    ensures run[i].lost == {}
  {
    if b :| b in run[i].lost {
      var j := LostSlipped(run, steps, i, b);
      assert false;
    }
  }

  // ---- exactly which failed Acquires strand their waiter ----

  /** A waiter is registered, no event is on its way, and a backing is usable that the next tick wakes nobody for. */
  predicate Stranded(s: State) {
    && s.waiters != {} && Quiet(s) && s.completed + 1 !in s.points
    && exists b :: b in s.backings && Reusable(s.backings[b], s.completed)
  }

  /** Arming finds the next tick: some free backing is held by the clock's next point, or by a readback pin. */
  predicate FindsNextTick(bs: Backings, clock: nat, todo: set<nat>) {
    exists b :: b in bs && bs[b].place == Free && b !in todo && ArmPoint(bs[b], clock) == clock + 1
  }

  /** In every interleaving, what strands a waiter is a backing that slipped between the looks of an Acquire that subscribed. */
  lemma StrandedBySlipping(run: seq<State>, steps: seq<Step>, i: nat) returns (b: nat, j: nat)
    requires IsRun(run, steps) && i < |run| && Stranded(run[i])
    ensures b in run[i].backings && Reusable(run[i].backings[b], run[i].completed)
    ensures j < i && steps[j].action.PushWaiter? && b in run[j].backings
    ensures Slipped(run[j].backings[b], run[j].first, run[j].second, b in run[j].dropped)
  {
    b :| b in run[i].backings && Reusable(run[i].backings[b], run[i].completed);
    if b !in run[i].lost { NoWakeIsLost(run, steps, i, b); }
    j := LostSlipped(run, steps, i, b);
  }

  /** In every interleaving, a waiter is stranded exactly by what was lost: with nothing on its way and the next tick unsubscribed, when a
      lost backing is usable. */
  lemma StrandedIsLost(run: seq<State>, steps: seq<Step>, i: nat)
    requires IsRun(run, steps) && i < |run|
    ensures Stranded(run[i]) <==>
      && run[i].waiters != {} && Quiet(run[i]) && run[i].completed + 1 !in run[i].points
      && exists b :: b in run[i].lost && b in run[i].backings && Reusable(run[i].backings[b], run[i].completed)
  {
    if Stranded(run[i]) {
      var b :| b in run[i].backings && Reusable(run[i].backings[b], run[i].completed);
      if b !in run[i].lost { NoWakeIsLost(run, steps, i, b); }
    }
  }

  /** What a caller can read off the state between the two looks: nothing is counted or on its way, an unpinned backing slipped, and the
      next tick is neither subscribed nor about to be. */
  predicate WillStrand(s: State) {
    && s.events == s.scanEvents && Quiet(s)
    && (exists b :: b in s.backings && Unpinned(s.backings[b]) && Slipped(s.backings[b], s.first, s.completed, b in s.dropped))
    && s.completed + 1 !in s.points && !FindsNextTick(s.backings, s.completed, {})
  }

  /** The acquirer's own steps from its second reading to its subscription. */
  predicate OwnStep(a: Action) {
    a.ReadAgain? || a.LookToArm? || a.EndArming? || a.SetArmed? || a.SubscribeClock? || a.PushWaiter? || a.CheckEvents?
  }

  /** The next tick is subscribed when it was, or when arming found it; what else was subscribed lies ahead. */
  predicate Subscribed(s: State, points: set<nat>) {
    && (forall p :: p in s.points ==> p in points) && (forall p :: p in points ==> p in s.points || s.completed < p)
    && (Quiet(s) ==> (s.completed + 1 in points <==> s.completed + 1 in s.points || FindsNextTick(s.backings, s.completed, {})))
  }

  /** The point arming has come to, of the backings looked at. */
  predicate Arms(s: State, point: nat, todo: set<nat>) {
    (point != 0 ==> s.completed < point) && (point == s.completed + 1 <==> FindsNextTick(s.backings, s.completed, todo))
  }

  /** Own steps from s, about to look again, have led to e. */
  ghost predicate Leads(s: State, e: State) {
    && e.backings == s.backings && e.completed == s.completed && e.events == s.events && e.scanEvents == s.scanEvents
    && e.threads == s.threads
    && match e.acquirer
       case Rereading => e.points == s.points
       case Arming(clock, todo, point) =>
         && clock == s.completed && e.points == s.points && Arms(s, point, todo)
         && (forall b :: b in todo ==> b in s.backings && s.backings[b].place == Free)
       case Setting(_, point) => e.points == s.points && point != 0 && Arms(s, point, {})
       case Subscribing(_, point) => e.points == s.points && point != 0 && Arms(s, point, {})
       case Failed => Subscribed(s, e.points)
       case Checking => Subscribed(s, e.points) && e.waiters != {}
       case Resting => Subscribed(s, e.points) && e.waiters != {} && s.events == s.scanEvents
       case CountingOwn => s.events != s.scanEvents
       case _ => false
  }

  lemma LooksOn(s: State, e: State, b: nat)
    requires Leads(s, e) && e.acquirer.Arming? && b in e.acquirer.todo
    ensures b in s.backings
    ensures Arms(s, Sooner(e.acquirer.point, ArmPoint(s.backings[b], s.completed)), e.acquirer.todo - {b})
  {
    var todo, at := e.acquirer.todo, ArmPoint(s.backings[b], s.completed);
    if FindsNextTick(s.backings, s.completed, todo - {b}) {
      var q :| q in s.backings && s.backings[q].place == Free && q !in todo - {b} && ArmPoint(s.backings[q], s.completed) == s.completed + 1;
      assert q != b ==> FindsNextTick(s.backings, s.completed, todo);
    }
    if FindsNextTick(s.backings, s.completed, todo) {
      var q :| q in s.backings && s.backings[q].place == Free && q !in todo && ArmPoint(s.backings[q], s.completed) == s.completed + 1;
      assert q !in todo - {b};
    }
  }

  /** A point armed already is subscribed, and it is no later: it is the next tick when this one is. */
  lemma ArmedBefore(s: State, e: State)
    requires Leads(s, e) && e.acquirer.Setting? && ArmedIsReal(e.armedAt, e.points, e.threads, e.acquirer)
    requires e.armedAt != 0 && e.armedAt <= e.acquirer.point
    ensures Subscribed(s, e.points)
  {
    if Quiet(s) && FindsNextTick(s.backings, s.completed, {}) {
      assert e.armedAt in s.points;
    }
  }

  lemma OwnStepLeads(s: State, e: State, t: nat, a: Action)
    requires Leads(s, e) && Inv(e) && Enabled(e, t, a) && OwnStep(a)
    ensures Leads(s, Apply(e, t, a))
  {
    match a
    case ReadAgain =>
      assert !FindsNextTick(s.backings, s.completed, FreeOnes(s.backings));
    case LookToArm(b) => LooksOn(s, e, b);
    case EndArming =>
      assert e.acquirer.todo == {};
    case SetArmed =>
      if e.armedAt != 0 && e.armedAt <= e.acquirer.point { ArmedBefore(s, e); }
    case SubscribeClock =>
    case PushWaiter(_) =>
    case CheckEvents =>
  }

  lemma {:induction false} Directly(run: seq<State>, steps: seq<Step>, i: nat, k: nat)
    requires IsRun(run, steps) && i <= k < |run| && run[i].acquirer.Rereading?
    requires forall j :: i <= j < k ==> OwnStep(steps[j].action)
    ensures Leads(run[i], run[k])
    decreases k
  {
    if i < k {
      Directly(run, steps, i, k - 1);
      RunInv(run, steps, k - 1);
      OwnStepLeads(run[i], run[k - 1], steps[k - 1].thread, steps[k - 1].action);
    }
  }

  /** Between the looks, with nothing counted or on its way, the usable are the unpinned that slipped. */
  lemma UsableSlipped(s: State)
    requires Inv(s) && s.acquirer.Rereading? && s.events == s.scanEvents && !Uncounted(s.threads, s.points, s.completed)
    ensures forall b :: b in s.backings ==> (Reusable(s.backings[b], s.completed) <==>
      Unpinned(s.backings[b]) && Slipped(s.backings[b], s.first, s.completed, b in s.dropped))
  {
    forall b | b in s.backings && Reusable(s.backings[b], s.completed) && b !in s.dropped ensures s.first < s.backings[b].safeAt {
      assert Refused(s.backings[b], s.first);
    }
  }

  lemma LedToEnd(s: State, e: State)
    requires Inv(s) && s.acquirer.Rereading? && Leads(s, e) && (e.acquirer.Resting? || e.acquirer.CountingOwn?)
    ensures Stranded(e) <==> WillStrand(s)
  {
    if s.events == s.scanEvents {
      assert Quiet(s) <==> Quiet(e);
      if Quiet(s) { UsableSlipped(s); }
    }
  }

  lemma ChecksLast(s: State, t: nat, a: Action)
    requires Enabled(s, t, a) && a.CheckEvents?
    ensures Apply(s, t, a).acquirer.Resting? || Apply(s, t, a).acquirer.CountingOwn?
  {}

  /** A failed Acquire whose caller subscribes directly strands its waiter exactly when, between its two readings, some backing slipped:
      whatever the other threads did until the second reading. */
  lemma StrandedExactly(run: seq<State>, steps: seq<Step>, i: nat, k: nat)
    requires IsRun(run, steps) && i < k < |run| && run[i].acquirer.Rereading?
    requires (forall j :: i <= j < k ==> OwnStep(steps[j].action)) && steps[k - 1].action.CheckEvents?
    ensures Stranded(run[k]) <==> WillStrand(run[i])
  {
    Directly(run, steps, i, k);
    ChecksLast(run[k - 1], steps[k - 1].thread, steps[k - 1].action);
    RunInv(run, steps, i);
    LedToEnd(run[i], run[k]);
  }

  // ---- why the second reading matters ----

  lemma Extend(run: seq<State>, steps: seq<Step>, t: nat, a: Action)
    requires IsRun(run, steps) && Enabled(run[|steps|], t, a)
    ensures IsRun(run + [Apply(run[|steps|], t, a)], steps + [Step(t, a)])
  {}

  lemma Go(run: seq<State>, steps: seq<Step>, a: Action) returns (run': seq<State>, steps': seq<Step>)
    requires IsRun(run, steps) && Enabled(run[|steps|], 0, a)
    ensures IsRun(run', steps') && run'[|steps'|] == Apply(run[|steps|], 0, a)
  {
    Extend(run, steps, 0, a);
    run', steps' := run + [Apply(run[|steps|], 0, a)], steps + [Step(0, a)];
  }

  const START: State :=
    State(map[0 := Backing(Leased, 5, 0, 0)], 0, {}, 0, 0, 0, {}, map[0 := Idle], Resting, 0, 0, {}, {}, {})

  lemma Returns() returns (run: seq<State>, steps: seq<Step>)
    ensures IsRun(run, steps)
    ensures run[|steps|] == START.(backings := map[0 := Backing(Stacked, 5, 0, 0)], threads := map[0 := Counting])
  {
    run, steps := [START], [];
    run, steps := Go(run, steps, ReturnLast(0));
    run, steps := Go(run, steps, PushReturned);
  }

  /** A backing bound to point 5 comes back. */
  lemma ComesBack() returns (run: seq<State>, steps: seq<Step>)
    ensures IsRun(run, steps)
    ensures run[|steps|] == START.(backings := map[0 := Backing(Stacked, 5, 0, 0)], events := 1)
  {
    run, steps := Returns();
    run, steps := Go(run, steps, CountEvent);
    run, steps := Go(run, steps, ExchangeWaiters);
  }

  const ONLY: set<nat> := {0}
  const BACK: State := START.(backings := map[0 := Backing(Free, 5, 0, 0)], events := 1, scanEvents := 1)

  lemma Starts() returns (run: seq<State>, steps: seq<Step>)
    ensures IsRun(run, steps)
    ensures run[|steps|] == BACK.(acquirer := Scanning(0, ONLY, {}))
  {
    run, steps := ComesBack();
    run, steps := Go(run, steps, StartAcquire);
    run, steps := Go(run, steps, TakeReturned);
    assert run[|steps|] == BACK.(acquirer := Reading);
    assert FreeOnes(BACK.backings) == ONLY;
    run, steps := Go(run, steps, ReadClock);
  }

  lemma Refuses() returns (run: seq<State>, steps: seq<Step>)
    ensures IsRun(run, steps)
    ensures run[|steps|] == BACK.(acquirer := Rereading)
  {
    run, steps := Starts();
    run, steps := Go(run, steps, Look(0));
    assert ONLY - {0} == {};
    run, steps := Go(run, steps, EndScan);
  }

  /** Acquire finds it held by the clock; then the clock reaches it, before Acquire looks again to arm. */
  lemma LooksTwice() returns (run: seq<State>, steps: seq<Step>)
    ensures IsRun(run, steps)
    ensures run[|steps|] == BACK.(completed := 5, second := 5, acquirer := Arming(5, ONLY, 0))
  {
    run, steps := Refuses();
    run, steps := Go(run, steps, Advance(5));
    assert FreeOnes(BACK.backings) == ONLY;
    run, steps := Go(run, steps, ReadAgain);
  }

  lemma ArmsNothing() returns (run: seq<State>, steps: seq<Step>)
    ensures IsRun(run, steps)
    ensures run[|steps|] == BACK.(completed := 5, second := 5, missed := ONLY, acquirer := Failed)
  {
    run, steps := LooksTwice();
    assert !Uncounted(BACK.threads, BACK.points, 5);
    run, steps := Go(run, steps, LookToArm(0));
    assert ONLY - {0} == {};
    run, steps := Go(run, steps, EndArming);
  }

  /** An Advance between Acquire's reading of the clock (src/BackingPool.cpp:369) and ArmAvailability's (479) loses the wake: a waiter
      is left registered, nothing is on its way, no clock wake is armed, and a backing is usable. */
  lemma AdvanceBetweenReadingsLosesAWake() returns (run: seq<State>, steps: seq<Step>)
    ensures IsRun(run, steps)
    ensures var s := run[|steps|]; s.waiters != {} && Quiet(s) && s.points == {} && 0 in s.backings && Reusable(s.backings[0], s.completed)
  {
    run, steps := ArmsNothing();
    run, steps := Go(run, steps, PushWaiter(7));
    run, steps := Go(run, steps, CheckEvents);
  }
}
