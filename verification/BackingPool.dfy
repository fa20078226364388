/** A pool of backings (src/BackingPool.cpp): one acquirer takes returned backings in, hands out the nearest usable one, makes a new one
    under the class limit, and releases what is over. A lease's return is three atomic steps of any thread (its last release, the free
    count, the push), so a backing may be caught between them.

    What the acquirer reads of a backing it reads once; a consumer that pins a backing between its look and its claim is in `late`
    (PinClaim shows the claim then fails). */
module BackingPool {
  import opened Bytes
  import opened BackingMemory

  const MAX_EPOCH: nat := 0xffff_ffff_ffff_ffff

  datatype Key = Key(stride: nat, flags: nat, compatibility: nat)
  datatype Request = Request(capacityClass: nat, key: Key)
  datatype Active = Active(key: Key, capacityClass: nat)
  datatype Config = Config(maxPerClass: nat, spareFree: nat, reuseBound: bool)

  function KeyOf(b: Backing): Key {
    Key(b.stride, b.flags, b.compatibility)
  }

  predicate Matches(b: Backing, request: Request) {
    KeyOf(b) == request.key && b.capacityClass == request.capacityClass
  }

  /** Nobody uses it: no lease names it, nothing pins it, and no frame in flight is bound to it. */
  predicate Reusable(b: Backing, completed: nat)
    reads b`leases, b`safeAt, b`readbackPins, b`bindingConsumers
  {
    b.leases == 0 && completed >= b.safeAt && b.readbackPins == 0 && b.bindingConsumers == 0
  }

  /** How far a backing's contents are from the journal: at or below the preferred epoch first, the nearest first. */
  function NearRank(epoch: nat, prefer: nat): nat {
    if epoch <= prefer then prefer - epoch else epoch
  }

  /** Nearer the journal: the highest epoch at or below the preferred one, then those past it, the lowest first. */
  lemma NearRankIsNearer(a: nat, b: nat, prefer: nat)
    ensures NearRank(a, prefer) < NearRank(b, prefer) <==>
      if a <= prefer && b <= prefer then a > b else if a > prefer && b > prefer then a < b else a <= prefer
  {}

  // ---- lists of backings ----

  function SetOf(s: seq<Backing>): set<Backing> {
    set b | b in s
  }

  predicate NoDup(s: seq<Backing>) {
    forall i, j :: 0 <= i < j < |s| ==> s[i] != s[j]
  }

  function Erase(s: seq<Backing>, b: Backing): seq<Backing> {
    if s == [] then [] else (if s[0] == b then [] else [s[0]]) + Erase(s[1..], b)
  }

  lemma {:induction false} ErasedIn(s: seq<Backing>, b: Backing, x: Backing)
    ensures x in Erase(s, b) <==> x in s && x != b
  {
    if s != [] {
      ErasedIn(s[1..], b, x);
      assert s == [s[0]] + s[1..];
    }
  }

  lemma ErasedSet(s: seq<Backing>, b: Backing)
    ensures forall x :: x in Erase(s, b) <==> x in s && x != b
  {
    forall x ensures x in Erase(s, b) <==> x in s && x != b { ErasedIn(s, b, x); }
  }

  lemma {:induction false} ErasedNoDup(s: seq<Backing>, b: Backing)
    requires NoDup(s)
    ensures NoDup(Erase(s, b)) && |Erase(s, b)| == |s| - if b in s then 1 else 0
  {
    if s != [] {
      var rest := s[1..];
      assert s == [s[0]] + rest;
      ErasedNoDup(rest, b);
      assert s[0] !in rest;
      ErasedIn(rest, b, s[0]);
      assert forall k :: 0 <= k < |Erase(rest, b)| ==> Erase(rest, b)[k] in Erase(rest, b);
    }
  }

  lemma PushNoDup(s: seq<Backing>, b: Backing)
    requires NoDup(s) && b !in s
    ensures NoDup(s + [b]) && NoDup([b] + s)
  {}

  lemma JoinNoDup(a: seq<Backing>, b: seq<Backing>)
    requires NoDup(a) && NoDup(b) && forall x :: x in b ==> x !in a
    ensures NoDup(a + b)
  {
    forall i, j | 0 <= i < j < |a + b| ensures (a + b)[i] != (a + b)[j] {
      if i < |a| <= j { assert (a + b)[j] in b; }
    }
  }

  function ClassCount(s: seq<Backing>, key: Key, capacityClass: nat): nat {
    if s == [] then 0
    else (if KeyOf(s[0]) == key && s[0].capacityClass == capacityClass then 1 else 0) + ClassCount(s[1..], key, capacityClass)
  }

  function TotalBytes(s: seq<Backing>): nat {
    if s == [] then 0 else s[0].byteCapacity + TotalBytes(s[1..])
  }

  lemma {:induction false} PushCounts(s: seq<Backing>, b: Backing, key: Key, capacityClass: nat)
    ensures TotalBytes(s + [b]) == TotalBytes(s) + b.byteCapacity
    ensures ClassCount(s + [b], key, capacityClass) ==
      ClassCount(s, key, capacityClass) + if KeyOf(b) == key && b.capacityClass == capacityClass then 1 else 0
  {
    if s == [] {
      assert s + [b] == [b];
    } else {
      PushCounts(s[1..], b, key, capacityClass);
      assert (s + [b])[1..] == s[1..] + [b];
    }
  }

  lemma {:induction false} EraseCounts(s: seq<Backing>, b: Backing, key: Key, capacityClass: nat)
    requires NoDup(s)
    ensures TotalBytes(s) == TotalBytes(Erase(s, b)) + if b in s then b.byteCapacity else 0
    ensures ClassCount(Erase(s, b), key, capacityClass) <= ClassCount(s, key, capacityClass)
    ensures !(KeyOf(b) == key && b.capacityClass == capacityClass) ==>
      ClassCount(Erase(s, b), key, capacityClass) == ClassCount(s, key, capacityClass)
  {
    if s != [] {
      var rest := s[1..];
      EraseCounts(rest, b, key, capacityClass);
      assert s == [s[0]] + rest;
      assert s[0] !in rest;
      assert Erase(s, b) == if s[0] == b then Erase(rest, b) else [s[0]] + Erase(rest, b);
      assert ([s[0]] + Erase(rest, b))[1..] == Erase(rest, b);
    }
  }

  lemma ErasedClasses(s: seq<Backing>, b: Backing)
    requires NoDup(s)
    ensures forall key, capacityClass :: ClassCount(Erase(s, b), key, capacityClass) <= ClassCount(s, key, capacityClass)
    ensures forall key, capacityClass :: !(KeyOf(b) == key && b.capacityClass == capacityClass) ==>
      ClassCount(Erase(s, b), key, capacityClass) == ClassCount(s, key, capacityClass)
  {
    forall key, capacityClass
      ensures ClassCount(Erase(s, b), key, capacityClass) <= ClassCount(s, key, capacityClass)
      ensures !(KeyOf(b) == key && b.capacityClass == capacityClass) ==>
        ClassCount(Erase(s, b), key, capacityClass) == ClassCount(s, key, capacityClass)
    {
      EraseCounts(s, b, key, capacityClass);
    }
  }

  // ---- conservation ----

  /** Each of the pool's backings is in exactly one place, and each list holds the ones of its place. */
  ghost predicate Conserved(all: seq<Backing>, free: seq<Backing>, returned: seq<Backing>, counted: set<Backing>)
    reads SetOf(all)`place, SetOf(all)`leases
  {
    && NoDup(all) && NoDup(free) && NoDup(returned)
    && (forall b :: b in free ==> b in all) && (forall b :: b in returned ==> b in all) && (forall b :: b in counted ==> b in all)
    && (forall b :: b in all ==>
          && (b.place == Free <==> b in free) && (b.place == Stacked <==> b in returned) && (b.place == Counted <==> b in counted)
          && (b.place == Leased <==> b.leases > 0))
  }

  /** A free backing taken out of both its lists leaves the others conserved. */
  lemma ConservedWithout(all: seq<Backing>, free: seq<Backing>, returned: seq<Backing>, counted: set<Backing>, b: Backing,
      all': seq<Backing>, free': seq<Backing>)
    requires Conserved(all, free, returned, counted) && b in free && NoDup(all') && NoDup(free')
    requires forall x :: x in all' <==> x in all && x != b
    requires forall x :: x in free' <==> x in free && x != b
    ensures Conserved(all', free', returned, counted)
  {
    assert b in all && b.place == Free;
  }

  ghost predicate Capped(all: seq<Backing>, maxPerClass: nat) {
    maxPerClass != 0 ==> forall key, capacityClass :: ClassCount(all, key, capacityClass) <= maxPerClass
  }

  /** Another class is now asked for this key. */
  predicate Superseded(a: Active, b: Backing) {
    a.key == KeyOf(b) && a.capacityClass != b.capacityClass
  }

  predicate DistinctKeys(active: seq<Active>) {
    forall i, j :: 0 <= i < j < |active| ==> active[i].key != active[j].key
  }

  class BackingPool {
    const config: Config
    var all: seq<Backing>
    var free: seq<Backing>
    var returned: seq<Backing>     // the return stack
    var active: seq<Active>
    var nextGeneration: nat
    var live: nat                  // the gauges
    var freeCount: nat
    var bytes: nat
    ghost var counted: set<Backing>

    /** The gauges are the sets they count. */
    ghost predicate Counts()
      reads this
    {
      live == |all| && bytes == TotalBytes(all) && freeCount == |free| + |returned| + |counted|
    }

    ghost predicate Valid()
      reads this, SetOf(all)`place, SetOf(all)`leases
    {
      Conserved(all, free, returned, counted) && Counts() && Capped(all, config.maxPerClass) && DistinctKeys(active)
    }

    constructor (config: Config)
      ensures Valid() && this.config == config && all == []
    {
      this.config, all, free, returned, active := config, [], [], [], [];
      nextGeneration, live, freeCount, bytes, counted := 1, 0, 0, 0, {};
    }

    /** A lease copied: one more. */
    method CopyLease(b: Backing)
      requires Valid() && b in all && b.leases > 0
      modifies b`leases
      ensures Valid() && b.leases == old(b.leases) + 1
    {
      b.leases := b.leases + 1;
    }

    /** A lease released; the last one starts the backing's return. */
    method ReleaseLease(b: Backing) returns (last: bool)
      requires Valid() && b in all && b.leases > 0
      modifies b`leases, b`place
      ensures Valid() && b.leases == old(b.leases) - 1 && last == (b.leases == 0)
      ensures b.place == if last then Returning else Leased
    {
      b.leases := b.leases - 1;
      last := b.leases == 0;
      if last { b.place := Returning; }
    }

    method CountReturn(b: Backing)
      requires Valid() && b in all && b.place == Returning
      modifies this`freeCount, this`counted, b`place
      ensures Valid() && b.place == Counted && freeCount == old(freeCount) + 1
    {
      freeCount := freeCount + 1;
      b.place, counted := Counted, counted + {b};
    }

    method PushReturn(b: Backing)
      requires Valid() && b in all && b.place == Counted
      modifies this`returned, this`counted, b`place
      ensures Valid() && b.place == Stacked && returned == [b] + old(returned)
    {
      PushNoDup(returned, b);
      returned := [b] + returned;
      b.place, counted := Stacked, counted - {b};
    }

    /** One backing taken off the return list. */
    method TakeIn(list: seq<Backing>, next: Backing)
      requires list != [] && list[0] == next && Conserved(all, free, list, counted)
      modifies this`free, next`place
      ensures Conserved(all, free, list[1..], counted) && free == old(free) + [next]
    {
      assert list == [next] + list[1..];
      PushNoDup(free, next);
      if next in all { free := free + [next]; }
      next.place := Free;
    }

    /** Takes the return stack in, whole. */
    method TakeReturned()
      requires Valid()
      modifies this`returned, this`free, SetOf(returned)`place
      ensures Valid() && returned == []
      ensures forall b :: b in free <==> b in old(free) || b in old(returned)
      ensures forall b :: b in all ==> (b in free <==> old(Available(b)))
    {
      var list := returned;
      returned := [];
      while list != []
        invariant Conserved(all, free, list, counted) && returned == []
        invariant |free| + |list| == |old(free)| + |old(returned)|
        invariant forall b :: b in free || b in list <==> b in old(free) || b in old(returned)
        invariant forall b :: b in list ==> b in old(returned)
        decreases |list|
      {
        assert list[0] in list && list == [list[0]] + list[1..];
        TakeIn(list, list[0]);
        list := list[1..];
      }
    }

    // ---- Acquire, step by step ----

    /** The free backings of the key that are usable: those of the class, and those of other classes to release. */
    method Classify(request: Request, completed: nat) returns (sameClass: seq<Backing>, others: seq<Backing>)
      requires Valid()
      ensures NoDup(sameClass) && NoDup(others)
      ensures forall b :: b in sameClass <==> b in free && Matches(b, request) && Reusable(b, completed)
      ensures forall b :: b in others <==>
        b in free && KeyOf(b) == request.key && b.capacityClass != request.capacityClass && Reusable(b, completed)
    {
      sameClass, others := [], [];
      for k := 0 to |free|
        invariant NoDup(sameClass) && NoDup(others)
        invariant forall b :: b in sameClass <==> b in free[..k] && Matches(b, request) && Reusable(b, completed)
        invariant forall b :: b in others <==>
          b in free[..k] && KeyOf(b) == request.key && b.capacityClass != request.capacityClass && Reusable(b, completed)
      {
        var backing := free[k];
        assert free[..k + 1] == free[..k] + [backing] && backing !in free[..k];
        if KeyOf(backing) != request.key { continue; }
        if backing.leases != 0 || completed < backing.safeAt || backing.readbackPins != 0 || backing.bindingConsumers != 0 { continue; }
        if backing.capacityClass == request.capacityClass {
          PushNoDup(sameClass, backing);
          sameClass := sameClass + [backing];
        } else {
          PushNoDup(others, backing);
          others := others + [backing];
        }
      }
      assert free[..|free|] == free;
    }

    method UpdateActive(request: Request)
      requires DistinctKeys(active)
      modifies this`active
      ensures DistinctKeys(active)
      ensures Active(request.key, request.capacityClass) in active
      ensures forall a: Active :: a.key != request.key ==> (a in active <==> a in old(active))
    {
      for k := 0 to |active|
        invariant active == old(active) && forall j :: 0 <= j < k ==> active[j].key != request.key
      {
        if active[k].key == request.key {
          var former := active;
          active := active[k := Active(request.key, request.capacityClass)];
          assert active[k] in active;
          forall a: Active | a.key != request.key ensures a in active <==> a in former {
            if a in former {
              var j :| 0 <= j < |former| && former[j] == a;
              assert active[j] == a;
            }
          }
          return;
        }
      }
      active := active + [Active(request.key, request.capacityClass)];
      assert active[|active| - 1] in active;
    }

    /** ReleaseBacking: the backing leaves the pool. */
    method ReleaseBacking(b: Backing)
      requires Valid() && b in free
      modifies this`free, this`all, this`freeCount, this`live, this`bytes
      ensures Valid() && all == Erase(old(all), b) && free == Erase(old(free), b)
    {
      assert b in all;
      ErasedSet(all, b);
      ErasedSet(free, b);
      ErasedNoDup(all, b);
      ErasedNoDup(free, b);
      ConservedWithout(all, free, returned, counted, b, Erase(all, b), Erase(free, b));
      EraseCounts(all, b, KeyOf(b), b.capacityClass);
      ErasedClasses(all, b);
      free, all := Erase(free, b), Erase(all, b);
      freeCount, live, bytes := freeCount - 1, live - 1, bytes - b.byteCapacity;
    }

    /** Those of the list not pinned meanwhile leave the pool. */
    method ReleaseAll(list: seq<Backing>, late: set<Backing>)
      requires Valid() && NoDup(list) && forall b :: b in list ==> b in free
      modifies this`free, this`all, this`freeCount, this`live, this`bytes
      ensures Valid()
      ensures forall b :: b in all <==> b in old(all) && !(b in list && b !in late)
      ensures forall b :: b in free <==> b in old(free) && !(b in list && b !in late)
      ensures forall key, capacityClass :: (forall b :: b in list ==> !(KeyOf(b) == key && b.capacityClass == capacityClass)) ==>
        ClassCount(all, key, capacityClass) == ClassCount(old(all), key, capacityClass)
    {
      for k := 0 to |list|
        invariant Valid()
        invariant forall b :: b in all <==> b in old(all) && !(b in list[..k] && b !in late)
        invariant forall b :: b in free <==> b in old(free) && !(b in list[..k] && b !in late)
        invariant forall key, capacityClass :: (forall b :: b in list ==> !(KeyOf(b) == key && b.capacityClass == capacityClass)) ==>
          ClassCount(all, key, capacityClass) == ClassCount(old(all), key, capacityClass)
      {
        var b := list[k];
        assert list[..k + 1] == list[..k] + [b] && b !in list[..k] && b in list;
        if b in late { continue; }
        ReleaseOne(b);
      }
      assert list[..|list|] == list;
    }

    method ReleaseOne(b: Backing)
      requires Valid() && b in free
      modifies this`free, this`all, this`freeCount, this`live, this`bytes
      ensures Valid()
      ensures forall x :: x in all <==> x in old(all) && x != b
      ensures forall x :: x in free <==> x in old(free) && x != b
      ensures forall key, capacityClass :: !(KeyOf(b) == key && b.capacityClass == capacityClass) ==>
        ClassCount(all, key, capacityClass) == ClassCount(old(all), key, capacityClass)
    {
      ReleaseBacking(b);
      ErasedSet(old(all), b);
      ErasedSet(old(free), b);
      ErasedClasses(old(all), b);
    }

    /** A free backing leased again: a fresh fill, which no version names yet. */
    method LeaseFree(b: Backing)
      requires Valid() && b in free
      modifies this`free, this`freeCount, b`leases, b`place, b`sealedBytes
      ensures Valid() && b.leases == 1 && b.place == Leased && b.sealedBytes == 0
      ensures forall x :: x in free <==> x in old(free) && x != b
    {
      assert b in all;
      ErasedSet(free, b);
      ErasedNoDup(free, b);
      free := Erase(free, b);
      freeCount := freeCount - 1;
      b.sealedBytes, b.leases, b.place := 0, 1, Leased;
    }

    /** A new backing of the class, under the limit. */
    method Allocate(request: Request) returns (b: Backing)
      requires Valid()
      requires config.maxPerClass != 0 ==> ClassCount(all, request.key, request.capacityClass) < config.maxPerClass
      modifies this`all, this`live, this`bytes, this`nextGeneration
      ensures Valid() && fresh(b) && all == old(all) + [b] && Matches(b, request) && b.leases == 1 && b.generation == old(nextGeneration)
      ensures b.contentEpoch == 0 && |b.memory| == b.byteCapacity == ByteCapacity(request) && b.sealedBytes == 0 && b.safeAt == 0
      ensures nextGeneration == old(nextGeneration) + 1
    {
      var held := new byte[ByteCapacity(request)];   // what a new buffer holds is anything
      b := new Backing(request.key.stride, request.key.flags, request.key.compatibility, nextGeneration, request.capacityClass,
        ByteCapacity(request), true, held[..]);
      nextGeneration := nextGeneration + 1;
      forall key, capacityClass
        ensures ClassCount(all + [b], key, capacityClass) ==
          ClassCount(all, key, capacityClass) + if KeyOf(b) == key && b.capacityClass == capacityClass then 1 else 0
      {
        PushCounts(all, b, key, capacityClass);
      }
      PushCounts(all, b, request.key, request.capacityClass);
      PushNoDup(all, b);
      all := all + [b];
      live, bytes := live + 1, bytes + b.byteCapacity;
    }

    /** reuseBound: the free backing of the class bound longest ago, though a frame in flight still binds it; none if there is none, or
        if that one was pinned meanwhile. */
    method FindBound(request: Request, late: set<Backing>) returns (bound: Backing?)
      requires Valid()
      ensures bound != null ==> bound !in late && exists k :: Longest(free, request, k) && free[k] == bound
      ensures bound == null <==> NoneBound(free, request, late)
      ensures bound != null ==> bound in LongestOf(SetOf(free), request) && bound in free
      ensures bound == null ==> NoneLeft(LongestOf(SetOf(free), request), late)
    {
      bound := null;
      ghost var at := 0;
      for k := 0 to |free|
        invariant bound == null ==> forall j :: 0 <= j < k ==> !Unpinned(free[j], request)
        invariant bound != null ==> at < k && free[at] == bound && Unpinned(bound, request)
        invariant bound != null ==> forall j :: 0 <= j < k && Unpinned(free[j], request) ==> bound.safeAt <= free[j].safeAt
        invariant bound != null ==> forall j :: 0 <= j < at && Unpinned(free[j], request) ==> bound.safeAt < free[j].safeAt
      {
        var b := free[k];
        if KeyOf(b) != request.key || b.capacityClass != request.capacityClass || b.leases != 0 || b.readbackPins != 0
           || b.bindingConsumers != 0 {
          continue;
        }
        if bound == null || b.safeAt < bound.safeAt { bound, at := b, k; }
      }
      if bound != null {
        assert Longest(free, request, at);
        if bound in late { bound := null; }
      }
      if bound == null { NoneAmong(free, request, late); }
    }

    /** The usable ones, nearest first (`order`): the first not pinned meanwhile, number `at`, is to be leased; past the spares behind it,
        and of superseded classes, all are released. */
    method ReleaseOver(request: Request, preferEpoch: nat, completed: nat, late: set<Backing>, ghost usable: set<Backing>,
                       ghost outgrown: set<Backing>)
        returns (chosen: Backing?, ghost order: seq<Backing>, ghost at: nat)
      requires Valid()
      requires forall b :: b in usable <==> b in free && Usable(b, request, completed)
      requires forall b :: b in outgrown <==> b in free && Outgrown(b, request, completed)
      modifies this`free, this`all, this`freeCount, this`live, this`bytes
      ensures Valid() && NoDup(order) && Sorted(order, preferEpoch) && Chosen(order, at, chosen, late)
      ensures forall b :: b in order <==> b in usable
      ensures forall b :: b in all <==> b in old(all) && !Gone(order, at, config.spareFree, outgrown, late, b)
      ensures forall b :: b in free <==> b in old(free) && !Gone(order, at, config.spareFree, outgrown, late, b)
      ensures chosen == null ==>
        ClassCount(all, request.key, request.capacityClass) == ClassCount(old(all), request.key, request.capacityClass)
      ensures chosen != null ==> chosen in free && chosen in all
    {
      var others, extra: seq<Backing>;
      chosen, others, extra, order, at := Select(request, preferEpoch, completed, late);
      ReleaseBoth(others, extra, late, request);
      if chosen != null {
        assert order[at] in order;
        OverIsPast(order, at, config.spareFree);
      }
    }

    method ReleaseBoth(others: seq<Backing>, extra: seq<Backing>, late: set<Backing>, ghost request: Request)
      requires Valid() && NoDup(others) && NoDup(extra) && (forall b :: b in others || b in extra ==> b in free)
      requires forall b :: b in extra ==> b !in others
      modifies this`free, this`all, this`freeCount, this`live, this`bytes
      ensures Valid()
      ensures forall b :: b in all <==> b in old(all) && (b in late || !(b in others || b in extra))
      ensures forall b :: b in free <==> b in old(free) && (b in late || !(b in others || b in extra))
      ensures extra == [] && (forall b :: b in others ==> !Matches(b, request)) ==>
        ClassCount(all, request.key, request.capacityClass) == ClassCount(old(all), request.key, request.capacityClass)
    {
      ReleaseAll(others, late);
      ReleaseAll(extra, late);
    }

    /** The nearest one that can be claimed; the other classes' and the ones past the spares. */
    method Select(request: Request, preferEpoch: nat, completed: nat, late: set<Backing>)
        returns (chosen: Backing?, others: seq<Backing>, extra: seq<Backing>, ghost order: seq<Backing>, ghost at: nat)
      requires Valid()
      ensures NoDup(others) && NoDup(extra) && NoDup(order) && Sorted(order, preferEpoch) && Chosen(order, at, chosen, late)
      ensures forall b :: b in order <==> b in free && Usable(b, request, completed)
      ensures forall b :: b in others <==> b in free && Outgrown(b, request, completed)
      ensures forall b :: b in extra <==> Over(order, at, config.spareFree, b)
      ensures (forall b :: b in extra ==> b in order && b != chosen) && (chosen == null ==> extra == [])
    {
      var sameClass: seq<Backing>;
      sameClass, others := Classify(request, completed);
      var sorted := SortNear(sameClass, preferEpoch);
      order := sorted;
      chosen, extra := Choose(sorted, config.spareFree, late);
      at := if chosen == null then |order| else FirstIndex(sorted, chosen, extra, config.spareFree, late);
      ExtraFacts(sorted, at, chosen, extra, config.spareFree, late);
      forall b ensures b in extra <==> Over(order, at, config.spareFree, b) { ExtraIsOver(order, at, chosen, extra, config.spareFree, late, b); }
    }

    /** With none reusable: the one bound longest ago, at the limit with reuseBound; none, at the limit; a new one below it. */
    method TakeOther(request: Request, late: set<Backing>, canAllocate: bool, ghost longest: set<Backing>) returns (r: Acquired)
      requires Valid() && longest == LongestOf(SetOf(free), request)
      modifies this`all, this`live, this`bytes, this`nextGeneration, this`free, this`freeCount, SetOf(free)`leases, SetOf(free)`place, SetOf(free)`sealedBytes
      ensures Valid()
      ensures r.Lent? && !r.isNew ==>
        && r.backing in longest && r.backing !in late && r.backing in old(free)
        && r.writeAfter == r.backing.safeAt && r.backing.leases == 1 && r.backing.sealedBytes == 0 && all == old(all)
        && config.maxPerClass != 0 && ClassCount(all, request.key, request.capacityClass) == config.maxPerClass
      ensures r.Lent? && r.isNew ==>
        && fresh(r.backing) && all == old(all) + [r.backing] && Matches(r.backing, request) && r.backing.leases == 1 && r.writeAfter == 0
        && r.backing.contentEpoch == 0 && |r.backing.memory| == r.backing.byteCapacity == ByteCapacity(request) && r.backing.sealedBytes == 0
        && r.backing.safeAt == 0
      ensures forall c :: c in old(all) && (r.Lent? ==> c != r.backing) ==> c.leases == old(c.leases) && c.sealedBytes == old(c.sealedBytes)
      ensures !r.Lent? ==> all == old(all)
      ensures forall b :: b in free <==> b in old(free) && (r.Lent? ==> b != r.backing)
      ensures AnswersOther(r, AtLimit(config, old(all), request), config.reuseBound, canAllocate)
      ensures r == Exhausted && config.reuseBound ==> NoneLeft(longest, late)
    {
      var classCount := ClassCount(all, request.key, request.capacityClass);
      if config.maxPerClass != 0 && classCount >= config.maxPerClass {
        if config.reuseBound {
          var bound := FindBound(request, late);
          if bound != null {
            LeaseFree(bound);
            return Lent(bound, false, bound.safeAt);
          }
        }
        return Exhausted;
      }
      if !canAllocate { return AllocationFails; }
      var b := Allocate(request);
      r := Lent(b, true, 0);
    }

    /** The free backings of a key that are usable, in some order of newest contents first, less the spares of its active class. */
    method TrimKey(a: Active, completed: nat) returns (release: seq<Backing>, ghost order: seq<Backing>)
      requires Valid()
      ensures NoDup(release) && NoDup(order) && Sorted(order, MAX_EPOCH)
      ensures forall b :: b in order <==> b in free && KeyOf(b) == a.key && Reusable(b, completed)
      ensures forall b :: b in release <==> Surplus(order, a, config.spareFree, b)
    {
      var candidates: seq<Backing> := [];
      for k := 0 to |free|
        invariant NoDup(candidates)
        invariant forall b :: b in candidates <==> b in free[..k] && KeyOf(b) == a.key && Reusable(b, completed)
      {
        assert free[..k + 1] == free[..k] + [free[k]] && free[k] !in free[..k];
        var b := free[k];
        if KeyOf(b) != a.key { continue; }
        if b.leases != 0 || completed < b.safeAt || b.readbackPins != 0 || b.bindingConsumers != 0 { continue; }
        PushNoDup(candidates, b);
        candidates := candidates + [b];
      }
      assert free[..|free|] == free;
      var sorted := SortNear(candidates, MAX_EPOCH);
      release := LessSpares(sorted, a);
      order := sorted;
    }

    /** All but the first spares of the class. */
    method LessSpares(sorted: seq<Backing>, a: Active) returns (release: seq<Backing>)
      requires NoDup(sorted)
      ensures NoDup(release) && forall b :: b in release <==> Surplus(sorted, a, config.spareFree, b)
    {
      release := [];
      var spares := 0;
      for k := 0 to |sorted|
        invariant NoDup(release) && spares == Min(ClassAhead(sorted, a.capacityClass, k), config.spareFree)
        invariant forall b :: b in release <==> exists i :: 0 <= i < k && sorted[i] == b && !Spared(sorted, a, config.spareFree, i)
      {
        if sorted[k].capacityClass == a.capacityClass && spares < config.spareFree {
          spares := spares + 1;
          continue;
        }
        assert !Spared(sorted, a, config.spareFree, k);
        PushNoDup(release, sorted[k]);
        release := release + [sorted[k]];
      }
    }

    /** What Trim releases, key by key. No two active entries name one key, so nothing is named twice. */
    method CollectTrim(completed: nat) returns (release: seq<Backing>, ghost orders: seq<seq<Backing>>)
      requires Valid()
      ensures NoDup(release) && |orders| == |active|
      ensures forall k :: 0 <= k < |active| ==> NoDup(orders[k]) && Sorted(orders[k], MAX_EPOCH)
      ensures forall k, b :: 0 <= k < |active| ==> (b in orders[k] <==> b in free && KeyOf(b) == active[k].key && Reusable(b, completed))
      ensures forall b :: b in release <==> AnySurplus(orders, active, config.spareFree, |active|, b)
    {
      release, orders := [], [];
      for k := 0 to |active|
        invariant NoDup(release) && |orders| == k
        invariant forall j :: 0 <= j < k ==> NoDup(orders[j]) && Sorted(orders[j], MAX_EPOCH)
        invariant forall j, b :: 0 <= j < k ==> (b in orders[j] <==> b in free && KeyOf(b) == active[j].key && Reusable(b, completed))
        invariant forall b :: b in release <==> AnySurplus(orders, active, config.spareFree, k, b)
      {
        var more, order := TrimKey(active[k], completed);
        forall b | b in release ensures KeyOf(b) != active[k].key {
          var j :| 0 <= j < k && Surplus(orders[j], active[j], config.spareFree, b);
          assert b in orders[j];
        }
        forall b | b in more ensures b in order {}
        JoinNoDup(release, more);
        forall b ensures AnySurplus(orders + [order], active, config.spareFree, k + 1, b) <==> b in release || b in more {
          OneMoreSurplus(orders, order, active, config.spareFree, b);
        }
        release, orders := release + more, orders + [order];
      }
    }

    /** Takes the returns in and releases, of each key still asked for, every usable backing but the newest spares of its active class. */
    method Trim(completed: nat, late: set<Backing>) returns (ghost orders: seq<seq<Backing>>)
      requires Valid()
      modifies this, SetOf(returned)`place
      ensures Valid() && returned == [] && active == old(active) && |orders| == |active|
      ensures forall k :: 0 <= k < |active| ==> NoDup(orders[k]) && Sorted(orders[k], MAX_EPOCH)
      ensures forall k, b :: 0 <= k < |active| ==>
        (b in orders[k] <==> b in old(all) && old(Available(b) && Reusable(b, completed)) && KeyOf(b) == active[k].key)
      ensures forall b :: b in all <==> b in old(all) && (b in late || !AnySurplus(orders, active, config.spareFree, |active|, b))
      ensures forall b :: b in free <==> b in all && old(Available(b))
    {
      TakeReturned();
      var release: seq<Backing>;
      release, orders := CollectTrim(completed);
      forall b | b in release ensures b in free {
        var k :| 0 <= k < |active| && Surplus(orders[k], active[k], config.spareFree, b);
        assert b in orders[k];
      }
      ReleaseAll(release, late);
    }

    /** The returns taken in, and the class noted as the key's active one. */
    method Prepare(request: Request, ghost completed: nat)
        returns (ghost back: set<Backing>, ghost longest: set<Backing>, ghost usable: set<Backing>, ghost outgrown: set<Backing>)
      requires Valid()
      modifies this`returned, this`free, this`active, SetOf(returned)`place
      ensures Valid() && returned == [] && back == SetOf(free)
      ensures forall b :: b in back <==> b in all && old(Available(b))
      ensures longest == LongestOf(back, request) == old(LongestOf(back, request))
      ensures usable == (set b | b in back && Usable(b, request, completed)) == set b | b in back && old(Usable(b, request, completed))
      ensures outgrown == (set b | b in back && Outgrown(b, request, completed)) == set b | b in back && old(Outgrown(b, request, completed))
      ensures Active(request.key, request.capacityClass) in active
      ensures forall a: Active :: a.key != request.key ==> (a in active <==> a in old(active))
    {
      TakeReturned();
      UpdateActive(request);
      back := SetOf(free);
      longest := LongestOf(back, request);
      usable := set b | b in back && Usable(b, request, completed);
      outgrown := set b | b in back && Outgrown(b, request, completed);
    }

    /** The one chosen, else another. */
    method Lend(chosen: Backing?, request: Request, late: set<Backing>, canAllocate: bool, ghost longest: set<Backing>) returns (r: Acquired)
      requires Valid() && if chosen != null then chosen in free else longest == LongestOf(SetOf(free), request)
      modifies this`all, this`live, this`bytes, this`nextGeneration, this`free, this`freeCount, SetOf(free)`leases, SetOf(free)`place, SetOf(free)`sealedBytes
      ensures Valid() && (chosen != null ==> r == Lent(chosen, false, 0))
      ensures forall b :: b in all <==> b in old(all) || (r.Lent? && r.isNew && b == r.backing)
      ensures r.Lent? ==> r.backing in all && r.backing.leases == 1 && r.backing.place == Leased && r.backing.sealedBytes == 0
      ensures r.Lent? && !r.isNew && chosen == null ==>
        r.backing in longest && r.backing !in late && r.writeAfter == r.backing.safeAt
      ensures r.Lent? && r.isNew ==>
        && fresh(r.backing) && Matches(r.backing, request) && r.backing.contentEpoch == 0 && r.writeAfter == 0 && chosen == null
        && |r.backing.memory| == r.backing.byteCapacity == ByteCapacity(request) && r.backing.safeAt == 0
      ensures forall c :: c in old(all) && (r.Lent? ==> c != r.backing) ==> c.leases == old(c.leases) && c.sealedBytes == old(c.sealedBytes)
      ensures forall b :: b in free <==> b in old(free) && (r.Lent? ==> b != r.backing)
      ensures chosen == null ==> AnswersOther(r, AtLimit(config, old(all), request), config.reuseBound, canAllocate)
      ensures r == Exhausted && config.reuseBound ==> NoneLeft(longest, late)
    {
      if chosen != null {
        assert chosen in all;
        LeaseFree(chosen);
        return Lent(chosen, false, 0);
      }
      r := TakeOther(request, late, canAllocate, longest);
    }

    /** The nearest usable one, else another. */
    method Pick(request: Request, preferEpoch: nat, completed: nat, late: set<Backing>, canAllocate: bool, ghost back: set<Backing>,
                ghost longest: set<Backing>, ghost usable: set<Backing>, ghost outgrown: set<Backing>)
        returns (r: Acquired, ghost order: seq<Backing>, ghost at: nat)
      requires Valid() && back == SetOf(free) && longest == LongestOf(back, request)
      requires forall b :: b in usable <==> b in free && Usable(b, request, completed)
      requires forall b :: b in outgrown <==> b in free && Outgrown(b, request, completed)
      modifies this`all, this`live, this`bytes, this`nextGeneration, this`free, this`freeCount, back`leases, back`place, back`sealedBytes
      ensures Valid() && NoDup(order) && Sorted(order, preferEpoch) && at <= |order|
      ensures forall b :: b in order <==> b in usable
      ensures (forall j :: 0 <= j < at ==> order[j] in late) && (at < |order| ==> order[at] !in late && r == Lent(order[at], false, 0))
      ensures forall b :: b in old(all) ==> (b in all <==> !Gone(order, at, config.spareFree, outgrown, late, b))
      ensures r.Lent? ==> r.backing in all && r.backing.leases == 1 && r.backing.place == Leased && r.backing.sealedBytes == 0
      ensures r.Lent? && !r.isNew && at == |order| ==>
        r.backing in longest && r.backing !in late && r.writeAfter == r.backing.safeAt
      ensures r.Lent? && r.isNew ==>
        && fresh(r.backing) && Matches(r.backing, request) && r.backing.contentEpoch == 0 && r.writeAfter == 0 && at == |order|
        && |r.backing.memory| == r.backing.byteCapacity == ByteCapacity(request) && r.backing.safeAt == 0
      ensures forall c :: c in old(all) && (r.Lent? ==> c != r.backing) ==> c.leases == old(c.leases) && c.sealedBytes == old(c.sealedBytes)
      ensures forall b :: b in free <==> b in back && !Gone(order, at, config.spareFree, outgrown, late, b) && (r.Lent? ==> b != r.backing)
      ensures at == |order| ==> AnswersOther(r, AtLimit(config, old(all), request), config.reuseBound, canAllocate)
      ensures r == Exhausted && config.reuseBound ==> NoneLeft(longest, late)
      ensures forall c :: c in all ==> c in old(all) || (r.Lent? && r.isNew && c == r.backing)
    {
      var chosen: Backing?;
      chosen, order, at := ReleaseOver(request, preferEpoch, completed, late, usable, outgrown);
      if chosen == null { LongestLeft(SetOf(free), back, request); }
      r := Lend(chosen, request, late, canAllocate, longest);
    }

    /** Of the backings that are `back`: a lease on the nearest usable one (number `at` of `order`, the first not pinned meanwhile), on one
        still bound, or on a new one; or none at the class limit. Behind the leased one the spares stay; the rest, and the key's superseded
        classes, are released. */
    method Acquire(request: Request, preferEpoch: nat, completed: nat, late: set<Backing>, canAllocate: bool)
        returns (r: Acquired, ghost back: set<Backing>, ghost order: seq<Backing>, ghost at: nat, ghost outgrown: set<Backing>)
      requires Valid()
      modifies this, SetOf(all)`leases, SetOf(all)`place, SetOf(all)`sealedBytes
      ensures Valid() && NoDup(order) && Sorted(order, preferEpoch) && at <= |order|
      ensures forall b :: b in back <==> b in old(all) && old(Available(b))
      ensures forall b :: b in order <==> b in back && old(Usable(b, request, completed))
      ensures (forall j :: 0 <= j < at ==> order[j] in late) && (at < |order| ==> order[at] !in late && r == Lent(order[at], false, 0))
      ensures forall b :: b in outgrown <==> b in back && old(Outgrown(b, request, completed))
      ensures forall b :: b in old(all) ==> (b in all <==> !Gone(order, at, config.spareFree, outgrown, late, b))
      ensures r.Lent? ==> r.backing in all && r.backing.leases == 1 && r.backing.place == Leased && r.backing.sealedBytes == 0
      ensures r.Lent? && !r.isNew && at == |order| ==>
        r.backing in old(LongestOf(back, request)) && r.backing !in late && r.writeAfter == r.backing.safeAt
      ensures r.Lent? && r.isNew ==>
        && fresh(r.backing) && Matches(r.backing, request) && r.backing.contentEpoch == 0 && r.writeAfter == 0 && at == |order|
        && |r.backing.memory| == r.backing.byteCapacity == ByteCapacity(request) && r.backing.safeAt == 0
      ensures forall c :: c in old(all) && (r.Lent? ==> c != r.backing) ==> c.leases == old(c.leases) && c.sealedBytes == old(c.sealedBytes)
      ensures returned == [] && forall b :: b in free <==>
        b in back && !Gone(order, at, config.spareFree, outgrown, late, b) && (r.Lent? ==> b != r.backing)
      ensures at == |order| ==> AnswersOther(r, AtLimit(config, old(all), request), config.reuseBound, canAllocate)
      ensures r == Exhausted && config.reuseBound ==> NoneLeft(old(LongestOf(back, request)), late)
      ensures Active(request.key, request.capacityClass) in active
      ensures forall a: Active :: a.key != request.key ==> (a in active <==> a in old(active))
      ensures forall c :: c in all ==> c in old(all) || (r.Lent? && r.isNew && c == r.backing)
    {
      assert forall b :: b in returned ==> b in all;
      ghost var longest, usable;
      back, longest, usable, outgrown := Prepare(request, completed);
      r, order, at := Pick(request, preferEpoch, completed, late, canAllocate, back, longest, usable, outgrown);
    }
  }

  datatype Acquired = Lent(backing: Backing, isNew: bool, writeAfter: nat) | Exhausted | AllocationFails

  /** Returned: on the return stack, or taken in. */
  ghost predicate Available(b: Backing)
    reads b`place
  {
    b.place == Free || b.place == Stacked
  }

  /** A backing the acquirer may hand out for the request. */
  predicate Usable(b: Backing, request: Request, completed: nat)
    reads b`leases, b`safeAt, b`readbackPins, b`bindingConsumers
  {
    Matches(b, request) && Reusable(b, completed)
  }

  ghost function FirstIndex(sorted: seq<Backing>, chosen: Backing?, extra: seq<Backing>, spareFree: nat, late: set<Backing>): (k: int)
    requires exists k :: FirstClaimed(sorted, k, chosen, extra, spareFree, late)
    ensures FirstClaimed(sorted, k, chosen, extra, spareFree, late)
  {
    var k :| FirstClaimed(sorted, k, chosen, extra, spareFree, late);
    k
  }

  /** Of the key, usable, but of a class no longer asked for. */
  predicate Outgrown(b: Backing, request: Request, completed: nat)
    reads b`leases, b`safeAt, b`readbackPins, b`bindingConsumers
  {
    KeyOf(b) == request.key && b.capacityClass != request.capacityClass && Reusable(b, completed)
  }

  /** Number `at` of the order is the first not pinned meanwhile; none is when `at` is past the end. */
  predicate Chosen(order: seq<Backing>, at: nat, chosen: Backing?, late: set<Backing>) {
    && at <= |order| && (forall j :: 0 <= j < at ==> order[j] in late)
    && (if at == |order| then chosen == null else chosen == order[at] && order[at] !in late)
  }

  /** Past the chosen one and the spares behind it. */
  ghost predicate Over(order: seq<Backing>, at: nat, spareFree: nat, b: Backing) {
    exists i :: at + spareFree < i < |order| && order[i] == b
  }

  /** Released: surplus or outgrown, and not pinned meanwhile. */
  ghost predicate Gone(order: seq<Backing>, at: nat, spareFree: nat, outgrown: set<Backing>, late: set<Backing>, b: Backing) {
    b !in late && (b in outgrown || Over(order, at, spareFree, b))
  }

  lemma OverIsPast(order: seq<Backing>, at: nat, spareFree: nat)
    requires NoDup(order) && at < |order|
    ensures !Over(order, at, spareFree, order[at])
  {}

  lemma ExtraIsOver(order: seq<Backing>, at: nat, chosen: Backing?, extra: seq<Backing>, spareFree: nat, late: set<Backing>, b: Backing)
    requires if chosen == null then extra == [] && at == |order| else FirstClaimed(order, at, chosen, extra, spareFree, late)
    ensures b in extra <==> Over(order, at, spareFree, b)
  {
    if chosen != null {
      var from := Min(at + 1 + spareFree, |order|);
      if b in extra {
        var k :| 0 <= k < |extra| && extra[k] == b;
        assert order[from + k] == b;
      }
      if Over(order, at, spareFree, b) {
        var i :| at + spareFree < i < |order| && order[i] == b;
        assert extra[i - from] == b;
      }
    }
  }

  /** The extra ones are reusable like the chosen, and are not it. */
  lemma ExtraFacts(sorted: seq<Backing>, at: int, chosen: Backing?, extra: seq<Backing>, spareFree: nat, late: set<Backing>)
    requires NoDup(sorted)
    requires if chosen == null then extra == [] else FirstClaimed(sorted, at, chosen, extra, spareFree, late)
    ensures NoDup(extra) && chosen !in extra && forall b :: b in extra ==> b in sorted
  {
    if chosen != null {
      var from := Min(at + 1 + spareFree, |sorted|);
      assert forall k :: 0 <= k < |extra| ==> extra[k] == sorted[from + k];
    }
  }

  // ---- spares ----

  /** How many of the first k are of the class. */
  function ClassAhead(s: seq<Backing>, capacityClass: nat, k: nat): nat
    requires k <= |s|
  {
    if k == 0 then 0 else ClassAhead(s, capacityClass, k - 1) + if s[k - 1].capacityClass == capacityClass then 1 else 0
  }

  /** A spare: of the active class, with fewer than the spares kept ahead of it. */
  predicate Spared(order: seq<Backing>, a: Active, spareFree: nat, i: nat) {
    i < |order| && order[i].capacityClass == a.capacityClass && ClassAhead(order, a.capacityClass, i) < spareFree
  }

  ghost predicate Surplus(order: seq<Backing>, a: Active, spareFree: nat, b: Backing) {
    exists i :: 0 <= i < |order| && order[i] == b && !Spared(order, a, spareFree, i)
  }

  ghost predicate AnySurplus(orders: seq<seq<Backing>>, active: seq<Active>, spareFree: nat, n: nat, b: Backing)
    requires n <= |orders| && n <= |active|
  {
    exists k :: 0 <= k < n && Surplus(orders[k], active[k], spareFree, b)
  }

  lemma OneMoreSurplus(orders: seq<seq<Backing>>, order: seq<Backing>, active: seq<Active>, spareFree: nat, b: Backing)
    requires |orders| < |active|
    ensures AnySurplus(orders + [order], active, spareFree, |orders| + 1, b) <==>
      AnySurplus(orders, active, spareFree, |orders|, b) || Surplus(order, active[|orders|], spareFree, b)
  {
    var more := orders + [order];
    assert more[|orders|] == order && forall k :: 0 <= k < |orders| ==> more[k] == orders[k];
  }

  lemma {:induction false} AheadGrows(s: seq<Backing>, capacityClass: nat, i: nat, j: nat)
    requires i <= j <= |s|
    ensures ClassAhead(s, capacityClass, i) <= ClassAhead(s, capacityClass, j)
    decreases j
  {
    if i < j { AheadGrows(s, capacityClass, i, j - 1); }
  }

  /** The spares hold the newest contents of their class. */
  lemma SparesAreNewest(order: seq<Backing>, a: Active, spareFree: nat, i: nat, j: nat)
    requires Sorted(order, MAX_EPOCH) && i < |order| && j < |order| && order[i].contentEpoch <= MAX_EPOCH
    requires Spared(order, a, spareFree, i) && !Spared(order, a, spareFree, j) && order[j].capacityClass == a.capacityClass
    ensures i < j && (order[j].contentEpoch <= MAX_EPOCH ==> order[j].contentEpoch <= order[i].contentEpoch)
  {
    if j <= i { AheadGrows(order, a.capacityClass, j, i); }
    assert NearRank(order[i].contentEpoch, MAX_EPOCH) <= NearRank(order[j].contentEpoch, MAX_EPOCH);
  }

  function SpareCount(order: seq<Backing>, a: Active, spareFree: nat, k: nat): nat
    requires k <= |order|
  {
    if k == 0 then 0 else SpareCount(order, a, spareFree, k - 1) + if Spared(order, a, spareFree, k - 1) then 1 else 0
  }

  /** And there are as many of them as the configuration keeps, or all there are. */
  lemma {:induction false} SparesCounted(order: seq<Backing>, a: Active, spareFree: nat, k: nat)
    requires k <= |order|
    ensures SpareCount(order, a, spareFree, k) == Min(ClassAhead(order, a.capacityClass, k), spareFree)
  {
    if k > 0 { SparesCounted(order, a, spareFree, k - 1); }
  }

  function ByteCapacity(request: Request): nat {
    if request.key.stride != 0 then request.capacityClass * request.key.stride else request.capacityClass
  }

  predicate Unpinned(b: Backing, request: Request)
    reads b`leases, b`safeAt, b`readbackPins, b`bindingConsumers
  {
    Matches(b, request) && b.leases == 0 && b.readbackPins == 0 && b.bindingConsumers == 0
  }

  /** Number k is the first of those bound longest ago. */
  predicate Longest(free: seq<Backing>, request: Request, k: int)
    reads SetOf(free)`leases, SetOf(free)`safeAt, SetOf(free)`readbackPins, SetOf(free)`bindingConsumers
  {
    && 0 <= k < |free| && Unpinned(free[k], request)
    && (forall j :: 0 <= j < |free| && Unpinned(free[j], request) ==> free[k].safeAt <= free[j].safeAt)
    && (forall j :: 0 <= j < k && Unpinned(free[j], request) ==> free[k].safeAt < free[j].safeAt)
  }

  /** There is no bound backing to wait for, or the one bound longest ago was pinned meanwhile. */
  ghost predicate NoneBound(free: seq<Backing>, request: Request, late: set<Backing>)
    reads SetOf(free)`leases, SetOf(free)`safeAt, SetOf(free)`readbackPins, SetOf(free)`bindingConsumers
  {
    (forall b :: b in free ==> !Unpinned(b, request)) || exists k :: Longest(free, request, k) && free[k] in late
  }

  /** Which answer there is with none usable: at the class limit one still bound (with reuseBound), or none; below it a new one. */
  predicate AnswersOther(r: Acquired, full: bool, reuseBound: bool, canAllocate: bool) {
    && (r == AllocationFails <==> !full && !canAllocate)
    && (r.Lent? && r.isNew <==> !full && canAllocate)
    && (r.Lent? && !r.isNew ==> full && reuseBound)
  }

  predicate AtLimit(config: Config, all: seq<Backing>, request: Request) {
    config.maxPerClass != 0 && config.maxPerClass <= ClassCount(all, request.key, request.capacityClass)
  }

  /** The unpinned ones of the class bound longest ago. */
  ghost function LongestOf(back: set<Backing>, request: Request): set<Backing>
    reads back`leases, back`safeAt, back`readbackPins, back`bindingConsumers
  {
    set c | c in back && Unpinned(c, request) && forall b :: b in back && Unpinned(b, request) ==> c.safeAt <= b.safeAt
  }

  /** None of them to wait for: there is none, or one was pinned meanwhile. */
  predicate NoneLeft(longest: set<Backing>, late: set<Backing>) {
    longest == {} || longest * late != {}
  }

  /** There is none only if nothing of the class is unpinned. */
  lemma SomeLongest(back: set<Backing>, request: Request, b: Backing) returns (c: Backing)
    requires b in back && Unpinned(b, request)
    ensures c in LongestOf(back, request)
    decreases |back|
  {
    c := b;
    if d :| d in back && Unpinned(d, request) && d.safeAt < b.safeAt {
      assert |back - {b}| < |back|;
      c := SomeLongest(back - {b}, request, d);
    }
  }

  /** The ones released meanwhile were none of them. */
  lemma LongestLeft(left: set<Backing>, back: set<Backing>, request: Request)
    requires left <= back && forall b :: b in back && Unpinned(b, request) ==> b in left
    ensures LongestOf(left, request) == LongestOf(back, request)
  {}

  lemma NoneAmong(free: seq<Backing>, request: Request, late: set<Backing>)
    requires NoneBound(free, request, late)
    ensures NoneLeft(LongestOf(SetOf(free), request), late)
  {
    if k :| Longest(free, request, k) && free[k] in late {
      assert free[k] in LongestOf(SetOf(free), request) * late;
    }
  }

  // ---- nearest first ----

  predicate Sorted(s: seq<Backing>, prefer: nat)
    reads SetOf(s)`contentEpoch
  {
    forall i, j :: 0 <= i < j < |s| ==> NearRank(s[i].contentEpoch, prefer) <= NearRank(s[j].contentEpoch, prefer)
  }

  function Insert(s: seq<Backing>, b: Backing, prefer: nat): seq<Backing>
    reads SetOf(s)`contentEpoch, b`contentEpoch
  {
    if s == [] || NearRank(b.contentEpoch, prefer) < NearRank(s[0].contentEpoch, prefer) then [b] + s
    else [s[0]] + Insert(s[1..], b, prefer)
  }

  lemma {:induction false} InsertIn(s: seq<Backing>, b: Backing, prefer: nat, x: Backing)
    ensures x in Insert(s, b, prefer) <==> x in s || x == b
  {
    if s != [] && NearRank(b.contentEpoch, prefer) >= NearRank(s[0].contentEpoch, prefer) {
      assert s == [s[0]] + s[1..];
      InsertIn(s[1..], b, prefer, x);
    }
  }

  lemma {:induction false} InsertNoDup(s: seq<Backing>, b: Backing, prefer: nat)
    requires NoDup(s) && b !in s
    ensures NoDup(Insert(s, b, prefer))
  {
    if s != [] && NearRank(b.contentEpoch, prefer) >= NearRank(s[0].contentEpoch, prefer) {
      var next := Insert(s[1..], b, prefer);
      assert s == [s[0]] + s[1..] && s[0] !in s[1..];
      InsertNoDup(s[1..], b, prefer);
      InsertIn(s[1..], b, prefer, s[0]);
      assert forall j :: 0 <= j < |next| ==> next[j] in next;
    }
  }

  /** Ranked at or after `least`. */
  predicate From(s: seq<Backing>, least: nat, prefer: nat)
    reads SetOf(s)`contentEpoch
  {
    forall j :: 0 <= j < |s| ==> least <= NearRank(s[j].contentEpoch, prefer)
  }

  lemma {:induction false} InsertSorted(s: seq<Backing>, b: Backing, prefer: nat, least: nat)
    requires Sorted(s, prefer) && From(s, least, prefer) && least <= NearRank(b.contentEpoch, prefer)
    ensures Sorted(Insert(s, b, prefer), prefer) && From(Insert(s, b, prefer), least, prefer)
  {
    if s != [] && NearRank(b.contentEpoch, prefer) >= NearRank(s[0].contentEpoch, prefer) {
      InsertSorted(s[1..], b, prefer, NearRank(s[0].contentEpoch, prefer));
    }
  }

  method SortNear(s: seq<Backing>, prefer: nat) returns (sorted: seq<Backing>)
    requires NoDup(s)
    ensures Sorted(sorted, prefer) && NoDup(sorted)
    ensures forall b :: b in sorted <==> b in s
  {
    sorted := [];
    for k := 0 to |s|
      invariant Sorted(sorted, prefer) && NoDup(sorted)
      invariant forall b :: b in sorted <==> b in s[..k]
    {
      assert s[..k + 1] == s[..k] + [s[k]] && s[k] !in s[..k];
      InsertNoDup(sorted, s[k], prefer);
      InsertSorted(sorted, s[k], prefer, 0);
      forall x ensures x in Insert(sorted, s[k], prefer) <==> x in sorted || x == s[k] { InsertIn(sorted, s[k], prefer, x); }
      sorted := Insert(sorted, s[k], prefer);
    }
    assert s[..|s|] == s;
  }

  /** Number k is the first that is not pinned meanwhile; what follows it past the spares is extra. */
  predicate FirstClaimed(sorted: seq<Backing>, k: int, chosen: Backing?, extra: seq<Backing>, spareFree: nat, late: set<Backing>) {
    && 0 <= k < |sorted| && sorted[k] == chosen && sorted[k] !in late && (forall j :: 0 <= j < k ==> sorted[j] in late)
    && extra == sorted[Min(k + 1 + spareFree, |sorted|)..]
  }

  /** The first one claimed, and those past the spares to release. */
  method Choose(sorted: seq<Backing>, spareFree: nat, late: set<Backing>) returns (chosen: Backing?, extra: seq<Backing>)
    requires NoDup(sorted)
    ensures chosen == null <==> forall b :: b in sorted ==> b in late
    ensures chosen == null ==> extra == []
    ensures chosen != null ==> exists k :: FirstClaimed(sorted, k, chosen, extra, spareFree, late)
  {
    chosen, extra := null, [];
    var spares := 0;
    ghost var at := 0;
    for k := 0 to |sorted|
      invariant chosen == null ==> extra == [] && spares == 0 && forall j :: 0 <= j < k ==> sorted[j] in late
      invariant chosen != null ==> at < k && sorted[at] == chosen && chosen !in late && (forall j :: 0 <= j < at ==> sorted[j] in late)
      invariant chosen != null ==> spares == Min(k - at - 1, spareFree) && extra == sorted[Min(at + 1 + spareFree, k)..k]
    {
      var backing := sorted[k];
      if chosen == null {
        if backing !in late {
          chosen, at := backing, k;
        }
        continue;
      }
      if spares < spareFree {
        spares := spares + 1;
        continue;
      }
      assert sorted[at + 1 + spareFree..k] + [backing] == sorted[at + 1 + spareFree..k + 1];
      extra := extra + [backing];
    }
    if chosen != null {
      assert chosen in sorted;
      assert FirstClaimed(sorted, at, chosen, extra, spareFree, late);
    }
  }
}
