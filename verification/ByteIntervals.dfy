/** A set of byte positions kept as disjoint intervals in order (src/VersionedBufferBuild.cpp, ByteIntervals): the map from begin to
    end is a sorted sequence. */
module ByteIntervals {

  datatype Interval = Interval(begin: nat, end: nat)

  predicate Contains(v: Interval, i: int) {
    v.begin <= i < v.end
  }

  predicate Has(s: seq<Interval>, i: int) {
    exists k :: 0 <= k < |s| && Contains(s[k], i)
  }

  /** Nonempty intervals in order, no two touching: the one way to write a set of positions. */
  predicate Canonical(s: seq<Interval>) {
    && (forall k :: 0 <= k < |s| ==> s[k].begin < s[k].end)
    && (forall j, k :: 0 <= j < k < |s| ==> s[j].end < s[k].begin)
  }

  /** The first interval that begins past `x`, as the map finds it. */
  function UpperBound(s: seq<Interval>, x: nat): (k: nat)
    requires Canonical(s)
    ensures k <= |s| && (forall j :: 0 <= j < k ==> s[j].begin <= x) && (forall j :: k <= j < |s| ==> x < s[j].begin)
  {
    if s == [] || x < s[|s| - 1].begin then
      if s == [] then 0 else UpperBound(s[..|s| - 1], x)
    else |s|
  }

  function Erased(s: seq<Interval>, k: nat): (r: seq<Interval>)
    requires k < |s|
    ensures |r| == |s| - 1 && forall j :: 0 <= j < |r| ==> r[j] == if j < k then s[j] else s[j + 1]
  {
    s[..k] + s[k + 1..]
  }

  function Inserted(s: seq<Interval>, k: nat, v: Interval): (r: seq<Interval>)
    requires k <= |s|
    ensures |r| == |s| + 1 && forall j :: 0 <= j < |r| ==> r[j] == if j < k then s[j] else if j == k then v else s[j - 1]
  {
    s[..k] + [v] + s[k..]
  }

  lemma ErasedHas(s: seq<Interval>, k: nat)
    requires k < |s|
    ensures forall i :: Has(s, i) <==> Has(Erased(s, k), i) || Contains(s[k], i)
  {
    var r := Erased(s, k);
    forall i ensures Has(s, i) <==> Has(r, i) || Contains(s[k], i) {
      if Has(s, i) {
        var j :| 0 <= j < |s| && Contains(s[j], i);
        assert j == k || Contains(r[if j < k then j else j - 1], i);
      }
      if Has(r, i) {
        var j :| 0 <= j < |r| && Contains(r[j], i);
        assert Contains(s[if j < k then j else j + 1], i);
      }
    }
  }

  lemma InsertedHas(s: seq<Interval>, k: nat, v: Interval)
    requires k <= |s|
    ensures forall i :: Has(Inserted(s, k, v), i) <==> Has(s, i) || Contains(v, i)
  {
    ErasedHas(Inserted(s, k, v), k);
    assert Erased(Inserted(s, k, v), k) == s;
  }

  lemma PushedHas(s: seq<Interval>, v: Interval)
    ensures forall i :: Has(s + [v], i) <==> Has(s, i) || Contains(v, i)
  {
    InsertedHas(s, |s|, v);
    assert Inserted(s, |s|, v) == s + [v];
  }

  /** Room for an interval from `from` at place `next`. */
  predicate Room(s: seq<Interval>, next: nat, from: nat) {
    && Canonical(s) && next <= |s|
    && (forall k :: 0 <= k < next ==> s[k].end < from)
    && (forall k :: next <= k < |s| ==> from < s[k].begin)
  }

  /** A canonical set within [0, n) is one interval [0, n) exactly when it has every position. */
  lemma CoversWhole(s: seq<Interval>, n: nat)
    requires Canonical(s) && n != 0 && forall i :: Has(s, i) ==> 0 <= i < n
    ensures s == [Interval(0, n)] <==> forall i :: 0 <= i < n ==> Has(s, i)
  {
    if s == [Interval(0, n)] {
      forall i | 0 <= i < n ensures Has(s, i) { assert Contains(s[0], i); }
    }
    if forall i :: 0 <= i < n ==> Has(s, i) {
      assert Has(s, 0);
      assert Contains(s[0], s[0].begin) && s[0].begin == 0;
      assert !Has(s, s[0].end);
      assert Contains(s[0], s[0].end - 1) && Has(s, s[0].end - 1);
      assert |s| > 1 ==> Contains(s[1], s[1].begin) && Has(s, s[1].begin);
      assert s[0] == Interval(0, n) && |s| == 1;
    }
  }

  class ByteIntervals {
    var intervals: seq<Interval>

    constructor ()
      ensures intervals == []
    {
      intervals := [];
    }

    /** Add's loop: the intervals from `next` on that [from, to) touches are erased into it. */
    method Absorb(next: nat, from: nat, to: nat) returns (end: nat)
      requires Room(intervals, next, from) && from < to
      modifies this
      ensures Room(intervals, next, from) && to <= end && (next < |intervals| ==> end < intervals[next].begin)
      ensures forall i :: Has(intervals, i) || from <= i < end <==> Has(old(intervals), i) || from <= i < to
    {
      end := to;
      while next < |intervals| && intervals[next].begin <= end
        invariant Room(intervals, next, from) && to <= end
        invariant forall i :: Has(intervals, i) || from <= i < end <==> Has(old(intervals), i) || from <= i < to
        decreases |intervals|
      {
        var touched := intervals[next];
        ErasedHas(intervals, next);
        end := if end < touched.end then touched.end else end;
        intervals := Erased(intervals, next);
      }
    }

    method AddAt(next: nat, from: nat, to: nat)
      requires Room(intervals, next, from) && from < to
      modifies this
      ensures Canonical(intervals)
      ensures forall i :: Has(intervals, i) <==> Has(old(intervals), i) || from <= i < to
    {
      var end := Absorb(next, from, to);
      InsertedHas(intervals, next, Interval(from, end));
      intervals := Inserted(intervals, next, Interval(from, end));
    }

    /** Union with [begin, end), still canonical. */
    method Add(begin: nat, end: nat)
      requires Canonical(intervals)
      modifies this
      ensures Canonical(intervals)
      ensures forall i :: Has(intervals, i) <==> Has(old(intervals), i) || begin <= i < end
    {
      if begin >= end { return; }
      var next := UpperBound(intervals, begin);
      if next != 0 && intervals[next - 1].end >= begin {
        var before := intervals[next - 1];
        ErasedHas(intervals, next - 1);
        intervals := Erased(intervals, next - 1);
        AddAt(next - 1, before.begin, if end < before.end then before.end else end);
      } else {
        AddAt(next, begin, end);
      }
    }

    /** The parts of [begin, end) outside the set, whole and in order. */
    method ForEachGap(begin: nat, end: nat) returns (gaps: seq<Interval>)
      requires Canonical(intervals)
      ensures Canonical(gaps)
      ensures forall i :: Has(gaps, i) <==> begin <= i < end && !Has(intervals, i)
    {
      gaps := [];
      var from := begin;
      var next := UpperBound(intervals, from);
      if next != 0 && from < intervals[next - 1].end { from := intervals[next - 1].end; }
      while from < end
        invariant next <= |intervals| && begin <= from && Canonical(gaps)
        invariant forall k :: 0 <= k < next ==> intervals[k].end <= from
        invariant forall k :: next <= k < |intervals| ==> from <= intervals[k].begin
        invariant forall k :: 0 <= k < |gaps| ==> gaps[k].end < from && gaps[k].end <= end
        invariant forall i :: Has(gaps, i) <==> begin <= i < from && i < end && !Has(intervals, i)
        decreases |intervals| - next
      {
        if next == |intervals| || intervals[next].begin >= end {
          PushedHas(gaps, Interval(from, end));
          gaps := gaps + [Interval(from, end)];
          return;
        }
        if intervals[next].begin > from {
          PushedHas(gaps, Interval(from, intervals[next].begin));
          gaps := gaps + [Interval(from, intervals[next].begin)];
        }
        from := if from < intervals[next].end then intervals[next].end else from;
        next := next + 1;
      }
    }
  }
}
