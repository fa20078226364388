/** Cycle detection in the state graph (include/ORGModuleServices/Async/Detail/StateGraphImplementation.h:1753-1845): an explicit-stack
    search over mandatory requirements, with visit epochs and parent links left on the nodes. A key is a number. */
module DetectCycle {

  const MAX_U64: nat := 0xffff_ffff_ffff_ffff

  datatype Option<T> = None | Some(value: T)
  datatype Policy = Mandatory | Optional
  datatype Invalidation = Follow | ExactSnapshot | LifetimeHold
  datatype Requirement = Requirement(
    key: nat,
    policy: Policy,
    invalidation: Invalidation,
    requiredGeneration: nat,
    minimumRevision: nat)

  datatype Snapshot = Snapshot(key: nat, revision: nat, generation: nat)

  class Node {
    const key: nat
    const desiredRevision: nat
    const requirements: seq<Requirement>
    var cycleVisitEpoch: nat
    var cycleVisitParent: Option<nat>
    var failed: bool
    var generation: nat

    constructor (key: nat, desiredRevision: nat, requirements: seq<Requirement>)
      ensures this.key == key && this.desiredRevision == desiredRevision && this.requirements == requirements
      ensures cycleVisitEpoch == 0 && !failed
    {
      this.key, this.desiredRevision, this.requirements := key, desiredRevision, requirements;
      cycleVisitEpoch, cycleVisitParent, failed, generation := 0, None, false, 0;
    }
  }

  /** The requirement holds the node back. */
  predicate Counts(r: Requirement) {
    r.policy != Optional && r.invalidation != LifetimeHold
  }

  /** A node's requirement of an archived snapshot of itself. */
  predicate ArchivedPredecessor(node: Node, r: Requirement, versions: set<Snapshot>) {
    && r.key == node.key && r.invalidation == ExactSnapshot && r.requiredGeneration != 0 && r.minimumRevision != node.desiredRevision
    && Snapshot(r.key, r.minimumRevision, r.requiredGeneration) in versions
  }

  // ---- the graph the search is about ----

  type Graph = map<nat, set<nat>>

  function Targets(requirements: seq<Requirement>): (s: set<nat>)
    ensures forall k :: k in s <==> exists j :: 0 <= j < |requirements| && Counts(requirements[j]) && requirements[j].key == k
  {
    set j | 0 <= j < |requirements| && Counts(requirements[j]) :: requirements[j].key
  }

  /** The keys a node's own search starts from: its targets, less its archived self. */
  function Starts(node: Node, versions: set<Snapshot>): (s: set<nat>)
    ensures forall k :: k in s <==>
      exists j :: 0 <= j < |node.requirements| && Counts(node.requirements[j]) && node.requirements[j].key == k
                  && !ArchivedPredecessor(node, node.requirements[j], versions)
  {
    set j | 0 <= j < |node.requirements| && Counts(node.requirements[j]) && !ArchivedPredecessor(node, node.requirements[j], versions)
      :: node.requirements[j].key
  }

  /** A closed path of mandatory edges: it leaves the node by a start, and every key between is a node of the graph. */
  predicate IsCycle(g: Graph, starts: set<nat>, n: nat, path: seq<nat>) {
    && |path| >= 2 && path[0] == n && path[|path| - 1] == n && path[1] in starts
    && forall i :: 1 <= i < |path| - 1 ==> path[i] in g && path[i + 1] in g[path[i]]
  }

  function Keys(s: seq<nat>): (r: set<nat>)
    ensures forall k :: k in r <==> k in s
  {
    set k | k in s
  }

  lemma KeysPush(s: seq<nat>, j: nat)
    requires j < |s|
    ensures Keys(s[..j + 1]) == Keys(s[..j]) + {s[j]}
  {
    assert s[..j + 1] == s[..j] + [s[j]];
  }

  /** How many of a list's keys are in a set, each counted where it first stands. */
  function CountIn(s: seq<nat>, keys: set<nat>): nat {
    if s == [] then 0
    else
      var before, k := s[..|s| - 1], s[|s| - 1];
      CountIn(before, keys) + if k in keys && k !in before then 1 else 0
  }

  /** That is how many distinct ones there are. */
  lemma {:induction false} CountsDistinct(s: seq<nat>, keys: set<nat>)
    ensures CountIn(s, keys) == |Keys(s) * keys|
  {
    if s != [] {
      var before, k := s[..|s| - 1], s[|s| - 1];
      CountsDistinct(before, keys);
      KeysPush(s, |s| - 1);
      assert s[..|s|] == s;
      if k in keys && k !in before {
        assert Keys(s) * keys == Keys(before) * keys + {k} && k !in Keys(before) * keys;
      } else {
        assert Keys(s) * keys == Keys(before) * keys;
      }
    }
  }

  // ---- the search, on values ----

  /** Every visited key was reached from an earlier one, or from the node. */
  predicate Linked(g: Graph, starts: set<nat>, n: nat, visited: set<nat>, parent: map<nat, nat>, rank: map<nat, nat>) {
    && n !in visited && visited <= g.Keys
    && forall k :: k in visited ==>
         && k in parent && k in rank
         && (|| (parent[k] == n && k in starts)
             || (parent[k] in visited && k in g[parent[k]] && parent[k] in rank && rank[parent[k]] < rank[k]))
  }

  /** Nothing the key requires is unvisited, or the node itself. */
  predicate Exhausted(g: Graph, n: nat, visited: set<nat>, targets: set<nat>) {
    forall s :: s in targets ==> s != n && (s in g ==> s in visited)
  }

  predicate Searched(g: Graph, n: nat, visited: set<nat>, open: set<nat>) {
    forall k :: k in visited && k !in open && k in g ==> Exhausted(g, n, visited, g[k])
  }

  /** A finished search that met no edge back finds that there is no cycle at all. */
  lemma {:induction false} NoCycle(g: Graph, starts: set<nat>, n: nat, visited: set<nat>, path: seq<nat>, i: nat)
    requires Searched(g, n, visited, {}) && Exhausted(g, n, visited, starts)
    requires IsCycle(g, starts, n, path) && 1 <= i < |path|
    ensures path[i] != n && (path[i] in g ==> path[i] in visited)
  {
    if i > 1 {
      NoCycle(g, starts, n, visited, path, i - 1);
      assert path[i] in g[path[i - 1]];
      assert Exhausted(g, n, visited, g[path[i - 1]]);
    }
  }

  lemma NoneFound(g: Graph, starts: set<nat>, n: nat, visited: set<nat>)
    requires Searched(g, n, visited, {}) && Exhausted(g, n, visited, starts)
    ensures forall path :: !IsCycle(g, starts, n, path)
  {
    forall path ensures !IsCycle(g, starts, n, path) {
      if IsCycle(g, starts, n, path) { NoCycle(g, starts, n, visited, path, |path| - 1); }
    }
  }

  /** The links from a key back to the node. */
  predicate IsTrail(g: Graph, starts: set<nat>, trail: seq<nat>) {
    && trail != [] && trail[|trail| - 1] in starts
    && (forall i :: 0 <= i < |trail| ==> trail[i] in g)
    && (forall i :: 0 <= i < |trail| - 1 ==> trail[i] in g[trail[i + 1]])
  }

  function Reversed(s: seq<nat>): (r: seq<nat>)
    ensures |r| == |s| && forall i :: 0 <= i < |s| ==> r[i] == s[|s| - 1 - i]
  {
    seq(|s|, i requires 0 <= i < |s| => s[|s| - 1 - i])
  }

  /** A trail to a key with an edge to the node closes a cycle. */
  lemma TrailCloses(g: Graph, starts: set<nat>, n: nat, trail: seq<nat>)
    requires IsTrail(g, starts, trail) && n in g[trail[0]]
    ensures IsCycle(g, starts, n, [n] + Reversed(trail) + [n])
  {
    var path := [n] + Reversed(trail) + [n];
    forall i | 1 <= i < |path| - 1 ensures path[i] in g && path[i + 1] in g[path[i]] {
      assert path[i] == trail[|trail| - i];
      if i + 1 < |path| - 1 { assert path[i + 1] == trail[|trail| - i - 1]; }
    }
    assert path[1] == trail[|trail| - 1];
  }

  /** What the search has visited, from where, and in what order (history). */
  datatype Search = Search(visited: set<nat>, parent: map<nat, nat>, rank: map<nat, nat>)

  function Visited(s: Search, k: nat, from: nat, rank: nat): Search {
    Search(s.visited + {k}, s.parent[k := from], s.rank[k := rank])
  }

  /** A key visited from the node, or from a visited key that requires it. */
  lemma VisitedLinked(g: Graph, starts: set<nat>, n: nat, s: Search, k: nat, from: nat)
    requires Linked(g, starts, n, s.visited, s.parent, s.rank) && k in g && k != n && k !in s.visited
    requires (from == n && k in starts) || (from in s.visited && k in g[from])
    ensures var s' := Visited(s, k, from, if from in s.visited then s.rank[from] + 1 else 0);
      Linked(g, starts, n, s'.visited, s'.parent, s'.rank)
  {}

  // ---- the search, on the nodes ----

  class StateGraph {
    var nodes: map<nat, Node>
    var versions: set<Snapshot>
    var nextCycleVisitEpoch: nat
    var failedCount: nat
    var cycles: nat

    constructor ()
      ensures Valid() && nodes == map[]
    {
      nodes, versions, nextCycleVisitEpoch, failedCount, cycles := map[], {}, 0, 0, 0;
    }

    /** Nodes lie under their own keys; no visit epoch is ahead of the counter. */
    ghost predicate Valid()
      reads this, nodes.Values
    {
      && (forall k :: k in nodes ==> nodes[k].key == k && nodes[k].cycleVisitEpoch <= nextCycleVisitEpoch)
      && nextCycleVisitEpoch <= MAX_U64
    }

    ghost function Mandatory(): (g: Graph)
      reads this
      ensures g.Keys == nodes.Keys && forall k :: k in g ==> g[k] == Targets(nodes[k].requirements)
    {
      map k | k in nodes :: Targets(nodes[k].requirements)
    }

    /** The visit epochs and parents say what is visited, and from where. */
    ghost predicate Marks(epoch: nat, visited: set<nat>, parent: map<nat, nat>)
      reads this, nodes.Values
    {
      && (forall k :: k in nodes ==> nodes[k].key == k && (nodes[k].cycleVisitEpoch == epoch <==> k in visited))
      && (forall k :: k in nodes && k in visited ==> k in parent && nodes[k].cycleVisitParent == Some(parent[k]))
      && (forall k :: k in nodes ==> nodes[k].cycleVisitEpoch <= epoch)
    }

    /** A new epoch that no node carries, whatever earlier searches left behind. */
    method NextEpoch() returns (epoch: nat)
      requires Valid()
      modifies this`nextCycleVisitEpoch, nodes.Values`cycleVisitEpoch, nodes.Values`cycleVisitParent
      ensures epoch == nextCycleVisitEpoch && 0 < epoch <= MAX_U64 && Marks(epoch, {}, map[])
    {
      nextCycleVisitEpoch := (nextCycleVisitEpoch + 1) % (MAX_U64 + 1);
      if nextCycleVisitEpoch == 0 {
        forall k | k in nodes { nodes[k].cycleVisitEpoch := 0; }
        nextCycleVisitEpoch := nextCycleVisitEpoch + 1;
      }
      epoch := nextCycleVisitEpoch;
    }

    /** Marks one key visited from another. */
    method Visit(k: nat, epoch: nat, from: nat, ghost visited: set<nat>, ghost parent: map<nat, nat>)
      requires k in nodes && Marks(epoch, visited, parent)
      modifies nodes.Values`cycleVisitEpoch, nodes.Values`cycleVisitParent
      ensures Marks(epoch, visited + {k}, parent[k := from])
    {
      nodes[k].cycleVisitEpoch := epoch;
      nodes[k].cycleVisitParent := Some(from);
    }

    /** The first loop: an edge from the node to itself closes at once; the other starts are visited. */
    method VisitStarts(node: Node, epoch: nat) returns (closed: bool, pending: seq<nat>, ghost s: Search)
      requires node.key in nodes && nodes[node.key] == node && Marks(epoch, {}, map[])
      modifies nodes.Values`cycleVisitEpoch, nodes.Values`cycleVisitParent
      ensures closed <==> node.key in Starts(node, versions)
      ensures Marks(epoch, s.visited, s.parent)
      ensures !closed ==> Linked(Mandatory(), Starts(node, versions), node.key, s.visited, s.parent, s.rank)
      ensures !closed ==> Exhausted(Mandatory(), node.key, s.visited, Starts(node, versions))
      ensures !closed ==> forall k :: k in s.visited <==> k in pending
    {
      ghost var g, starts := Mandatory(), Starts(node, versions);
      pending, s, closed := [], Search({}, map[], map[]), false;
      for j := 0 to |node.requirements|
        invariant Marks(epoch, s.visited, s.parent) && Linked(g, starts, node.key, s.visited, s.parent, s.rank)
        invariant forall i :: 0 <= i < j && Counts(node.requirements[i]) && !ArchivedPredecessor(node, node.requirements[i], versions) ==>
          node.requirements[i].key != node.key && (node.requirements[i].key in g ==> node.requirements[i].key in s.visited)
        invariant forall k :: k in s.visited <==> k in pending
      {
        var r := node.requirements[j];
        if r.policy == Optional || r.invalidation == LifetimeHold { continue; }
        if r.key == node.key {
          if r.invalidation == ExactSnapshot && r.requiredGeneration != 0 && r.minimumRevision != node.desiredRevision
             && Snapshot(r.key, r.minimumRevision, r.requiredGeneration) in versions {
            continue;
          }
          return true, pending, s;
        }
        if r.key !in nodes || nodes[r.key].cycleVisitEpoch == epoch { continue; }
        VisitedLinked(g, starts, node.key, s, r.key, node.key);
        Visit(r.key, epoch, node.key, s.visited, s.parent);
        s := Visited(s, r.key, node.key, 0);
        pending := pending + [r.key];
      }
    }

    /** One key popped: an edge back to the node is found, or its targets are visited. */
    method Expand(n: nat, current: nat, epoch: nat, rest: seq<nat>, ghost starts: set<nat>, ghost before: Search)
        returns (found: bool, pending: seq<nat>, ghost s: Search)
      requires Marks(epoch, before.visited, before.parent) && current in before.visited && current in nodes
      requires Linked(Mandatory(), starts, n, before.visited, before.parent, before.rank)
      requires Searched(Mandatory(), n, before.visited, Keys(rest) + {current}) && forall k :: k in rest ==> k in before.visited
      modifies nodes.Values`cycleVisitEpoch, nodes.Values`cycleVisitParent
      ensures Marks(epoch, s.visited, s.parent) && Linked(Mandatory(), starts, n, s.visited, s.parent, s.rank)
      ensures found ==> n in Mandatory()[current] && current in s.visited
      ensures !found ==> Searched(Mandatory(), n, s.visited, Keys(pending)) && forall k :: k in pending ==> k in s.visited
      ensures before.visited <= s.visited && (s.visited == before.visited ==> pending == rest)
    {
      ghost var g := Mandatory();
      var requirements := nodes[current].requirements;
      found, pending, s := false, rest, before;
      for j := 0 to |requirements|
        invariant Marks(epoch, s.visited, s.parent) && Linked(g, starts, n, s.visited, s.parent, s.rank)
        invariant before.visited <= s.visited && (s.visited == before.visited ==> pending == rest)
        invariant forall k :: k in s.visited && k !in before.visited ==> k in pending
        invariant (forall k :: k in rest ==> k in pending) && (forall k :: k in pending ==> k in s.visited)
        invariant forall i :: 0 <= i < j && Counts(requirements[i]) ==>
          requirements[i].key != n && (requirements[i].key in g ==> requirements[i].key in s.visited)
      {
        var r := requirements[j];
        if r.policy == Optional || r.invalidation == LifetimeHold { continue; }
        if r.key == n { return true, pending, s; }
        if r.key !in nodes || nodes[r.key].cycleVisitEpoch == epoch { continue; }
        VisitedLinked(g, starts, n, s, r.key, current);
        Visit(r.key, epoch, current, s.visited, s.parent);
        s := Visited(s, r.key, current, s.rank[current] + 1);
        pending := pending + [r.key];
      }
      StillSearched(g, n, before.visited, s.visited, rest, pending, current);
    }

    /** Up the parent links to the node. */
    method Trail(n: nat, current: nat, epoch: nat, ghost starts: set<nat>, ghost s: Search) returns (trail: seq<nat>)
      requires Marks(epoch, s.visited, s.parent) && Linked(Mandatory(), starts, n, s.visited, s.parent, s.rank) && current in s.visited
      ensures IsTrail(Mandatory(), starts, trail) && trail[0] == current
    {
      ghost var g := Mandatory();
      trail := [];
      var cursor := current;
      while cursor != n
        invariant trail == [] ==> cursor == current
        invariant trail != [] ==> trail[0] == current
        invariant forall i :: 0 <= i < |trail| ==> trail[i] in g
        invariant forall i :: 0 <= i < |trail| - 1 ==> trail[i] in g[trail[i + 1]]
        invariant cursor == n ==> trail != [] && trail[|trail| - 1] in starts
        invariant cursor != n ==> cursor in s.visited && (trail != [] ==> trail[|trail| - 1] in g[cursor])
        decreases if cursor == n then 0 else s.rank[cursor] + 1
      {
        trail := trail + [cursor];
        if cursor !in nodes || nodes[cursor].cycleVisitParent.None? { break; }
        cursor := nodes[cursor].cycleVisitParent.value;
      }
    }

    /** One turn of the main loop: the last pending key is popped and expanded. */
    method Pop(n: nat, epoch: nat, before: seq<nat>, ghost starts: set<nat>, ghost from: Search)
        returns (path: seq<nat>, pending: seq<nat>, ghost s: Search)
      requires before != [] && Marks(epoch, from.visited, from.parent) && forall k :: k in before ==> k in from.visited
      requires Linked(Mandatory(), starts, n, from.visited, from.parent, from.rank)
      requires Searched(Mandatory(), n, from.visited, Keys(before))
      modifies nodes.Values`cycleVisitEpoch, nodes.Values`cycleVisitParent
      ensures Marks(epoch, s.visited, s.parent) && Linked(Mandatory(), starts, n, s.visited, s.parent, s.rank)
      ensures path != [] ==> IsCycle(Mandatory(), starts, n, path)
      ensures path == [] ==> Searched(Mandatory(), n, s.visited, Keys(pending)) && forall k :: k in pending ==> k in s.visited
      ensures from.visited <= s.visited && (s.visited == from.visited ==> |pending| < |before|)
    {
      var current, rest := before[|before| - 1], before[..|before| - 1];
      assert current in before && forall k :: k in before <==> k in rest || k == current;
      assert Keys(before) == Keys(rest) + {current};
      var found: bool;
      path := [];
      found, pending, s := Expand(n, current, epoch, rest, starts, from);
      if found {
        var trail := Trail(n, current, epoch, starts, s);
        TrailCloses(Mandatory(), starts, n, trail);
        path := [n] + Reversed(trail) + [n];
      }
    }

    method Explore(n: nat, epoch: nat, roots: seq<nat>, ghost starts: set<nat>, ghost from: Search)
        returns (path: seq<nat>, ghost visited: set<nat>)
      requires Marks(epoch, from.visited, from.parent) && forall k :: k in from.visited <==> k in roots
      requires Linked(Mandatory(), starts, n, from.visited, from.parent, from.rank)
      modifies nodes.Values`cycleVisitEpoch, nodes.Values`cycleVisitParent
      ensures forall k :: k in nodes ==> nodes[k].cycleVisitEpoch <= epoch
      ensures path != [] ==> IsCycle(Mandatory(), starts, n, path)
      ensures path == [] ==> from.visited <= visited && Searched(Mandatory(), n, visited, {})
    {
      ghost var s := from;
      var pending := roots;
      while pending != []
        invariant Marks(epoch, s.visited, s.parent) && Linked(Mandatory(), starts, n, s.visited, s.parent, s.rank)
        invariant Searched(Mandatory(), n, s.visited, Keys(pending)) && from.visited <= s.visited
        invariant forall k :: k in pending ==> k in s.visited
        decreases nodes.Keys - s.visited, |pending|
      {
        path, pending, s := Pop(n, epoch, pending, starts, s);
        if path != [] { return path, s.visited; }
      }
      path, visited := [], s.visited;
      assert Keys(pending) == {};
    }

    /** A closed path of mandatory edges through the node, exactly when there is one. */
    method DetectCycle(node: Node) returns (path: seq<nat>)
      requires Valid() && node.key in nodes && nodes[node.key] == node
      modifies this`nextCycleVisitEpoch, nodes.Values`cycleVisitEpoch, nodes.Values`cycleVisitParent
      ensures Valid()
      ensures path != [] ==> IsCycle(Mandatory(), Starts(node, versions), node.key, path)
      ensures path == [] ==> forall p :: !IsCycle(Mandatory(), Starts(node, versions), node.key, p)
    {
      var epoch := NextEpoch();
      var closed, pending: seq<nat>;
      ghost var s: Search;
      closed, pending, s := VisitStarts(node, epoch);
      if closed { return [node.key, node.key]; }
      ghost var visited: set<nat>;
      path, visited := Explore(node.key, epoch, pending, Starts(node, versions), s);
      if path == [] { NoneFound(Mandatory(), Starts(node, versions), node.key, visited); }
    }

    method FailOne(key: nat)
      requires forall k :: k in nodes ==> nodes[k].key == k
      modifies this`failedCount, nodes.Values`failed, nodes.Values`generation
      ensures forall k :: k in nodes ==> FailedOnce(nodes[k], k == key)
      ensures failedCount == old(failedCount) + if key in nodes then 1 else 0
    {
      if key !in nodes { return; }
      nodes[key].failed := true;
      nodes[key].generation := nodes[key].generation + 1;
      failedCount := failedCount + 1;
    }

    /** Every node of the cycle fails, once each; no other is touched. */
    method FailCycle(cycle: seq<nat>)
      requires forall k :: k in nodes ==> nodes[k].key == k
      modifies this`failedCount, this`cycles, nodes.Values`failed, nodes.Values`generation
      ensures cycles == old(cycles) + 1
      ensures forall k :: k in nodes ==> FailedOnce(nodes[k], k in cycle)
      ensures failedCount == old(failedCount) + |Keys(cycle) * nodes.Keys|
    {
      var unique: set<nat> := {};
      for j := 0 to |cycle|
        invariant cycles == old(cycles) && unique == Keys(cycle[..j])
        invariant forall k :: k in nodes ==> FailedOnce(nodes[k], k in unique)
        invariant failedCount == old(failedCount) + CountIn(cycle[..j], nodes.Keys)
      {
        KeysPush(cycle, j);
        assert cycle[..j + 1][..j] == cycle[..j];
        if cycle[j] in unique { continue; }
        FailOne(cycle[j]);
        unique := unique + {cycle[j]};
      }
      assert cycle[..|cycle|] == cycle;
      CountsDistinct(cycle, nodes.Keys);
      cycles := cycles + 1;
    }

    /** Detected and failed: the nodes of one mandatory cycle through the node, once each, and nothing else; so every such cycle has a
        failed node on it. With no cycle there is nothing to fail. */
    method FailAnyCycle(node: Node) returns (ghost path: seq<nat>)
      requires Valid() && node.key in nodes && nodes[node.key] == node
      modifies this, nodes.Values
      ensures Valid() && nodes == old(nodes) && versions == old(versions)
      ensures Mandatory() == old(Mandatory()) && Starts(node, versions) == old(Starts(node, versions))
      ensures path != [] <==> exists p :: IsCycle(Mandatory(), Starts(node, versions), node.key, p)
      ensures path != [] ==> IsCycle(Mandatory(), Starts(node, versions), node.key, path)
      ensures forall k :: k in nodes ==> FailedOnce(nodes[k], k in path)
      ensures cycles == old(cycles) + (if path == [] then 0 else 1) && failedCount == old(failedCount) + |Keys(path) * nodes.Keys|
      ensures forall p :: IsCycle(Mandatory(), Starts(node, versions), node.key, p) ==>
        exists k :: k in p && k in nodes && nodes[k].failed
    {
      var cycle := DetectCycle(node);
      path := cycle;
      if cycle != [] {
        FailCycle(cycle);
        forall p | IsCycle(Mandatory(), Starts(node, versions), node.key, p) ensures exists k :: k in p && k in nodes && nodes[k].failed {
          assert p[0] == cycle[0] == node.key && node.key in p && node.key in cycle;
        }
      }
    }
  }

  /** The node failed now, once; or it is as it was. */
  twostate predicate FailedOnce(node: Node, now: bool)
    reads node`failed, node`generation
  {
    if now then node.failed && node.generation == old(node.generation) + 1
    else node.failed == old(node.failed) && node.generation == old(node.generation)
  }

  lemma StillSearched(g: Graph, n: nat, before: set<nat>, after: set<nat>, rest: seq<nat>, pending: seq<nat>, current: nat)
    requires Searched(g, n, before, Keys(rest) + {current}) && before <= after
    requires (forall k :: k in rest ==> k in pending) && (forall k :: k in after && k !in before ==> k in pending)
    requires current in g ==> Exhausted(g, n, after, g[current])
    ensures Searched(g, n, after, Keys(pending))
  {
    forall k | k in after && k !in Keys(pending) && k in g ensures Exhausted(g, n, after, g[k]) {
      if k != current { assert Exhausted(g, n, before, g[k]); }
    }
  }
}
