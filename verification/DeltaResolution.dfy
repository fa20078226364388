/** The delta of a predecessor-copy build with its overlaps resolved, the later write winning
    (src/VersionedBufferBuild.cpp:309-337). */
module DeltaResolution {
  import opened Bytes
  import opened ByteIntervals

  /** One write of the host's delta; one upload of a batch. */
  datatype Piece = Piece(data: seq<byte>, offset: nat)

  predicate PieceHas(p: Piece, i: int) {
    p.offset <= i < p.offset + |p.data|
  }

  /** A write from index k on covers byte i. */
  predicate CoveredFrom(writes: seq<Piece>, k: nat, i: int) {
    exists j :: k <= j < |writes| && PieceHas(writes[j], i)
  }

  /** The byte of the last write that covers i. */
  function DeltaByte(writes: seq<Piece>, k: nat, i: int): byte
    requires CoveredFrom(writes, k, i)
    decreases |writes| - k
  {
    if CoveredFrom(writes, k + 1, i) then DeltaByte(writes, k + 1, i) else writes[k].data[i - writes[k].offset]
  }

  /** The byte a piece holds is the delta's. */
  ghost predicate Agrees(p: Piece, writes: seq<Piece>, k: nat) {
    p.data != [] && forall i :: PieceHas(p, i) ==> CoveredFrom(writes, k, i) && p.data[i - p.offset] == DeltaByte(writes, k, i)
  }

  predicate Held(pieces: seq<Piece>, i: int) {
    exists p :: p in pieces && PieceHas(p, i)
  }

  /** No two of the batch's uploads touch a byte. */
  ghost predicate Apart(pieces: seq<Piece>) {
    forall a, b, i :: 0 <= a < b < |pieces| && PieceHas(pieces[a], i) ==> !PieceHas(pieces[b], i)
  }

  /** The pieces are the delta from write k on: every covered byte once, with the last write's value. */
  ghost predicate Resolves(pieces: seq<Piece>, writes: seq<Piece>, k: nat) {
    && (forall p :: p in pieces ==> Agrees(p, writes, k))
    && (forall i :: CoveredFrom(writes, k, i) ==> Held(pieces, i))
    && Apart(pieces)
  }

  lemma CoveredStep(writes: seq<Piece>, k: nat, i: int)
    requires k < |writes|
    ensures CoveredFrom(writes, k, i) <==> CoveredFrom(writes, k + 1, i) || PieceHas(writes[k], i)
  {}

  /** What agreed with the later writes still does with one write more. */
  lemma AgreesEarlier(p: Piece, writes: seq<Piece>, k: nat)
    requires k < |writes| && Agrees(p, writes, k + 1)
    ensures Agrees(p, writes, k)
  {
    forall i | PieceHas(p, i) ensures CoveredFrom(writes, k, i) { CoveredStep(writes, k, i); }
  }

  /** A gap's piece is the write's own, since no later write covers it. */
  function Cut(w: Piece, gap: Interval): Piece
    requires w.offset <= gap.begin <= gap.end <= w.offset + |w.data|
  {
    Piece(w.data[gap.begin - w.offset..gap.end - w.offset], gap.begin)
  }

  lemma CutAgrees(writes: seq<Piece>, k: nat, gap: Interval)
    requires k < |writes| && writes[k].offset <= gap.begin < gap.end <= writes[k].offset + |writes[k].data|
    requires forall i :: Contains(gap, i) ==> !CoveredFrom(writes, k + 1, i)
    ensures Agrees(Cut(writes[k], gap), writes, k)
    ensures forall i :: PieceHas(Cut(writes[k], gap), i) <==> Contains(gap, i)
  {
    var p := Cut(writes[k], gap);
    forall i | PieceHas(p, i) ensures CoveredFrom(writes, k, i) && p.data[i - p.offset] == DeltaByte(writes, k, i) {
      assert Contains(gap, i);
      CoveredStep(writes, k, i);
    }
  }

  /** A piece apart from all the others joins them. */
  lemma ApartPush(pieces: seq<Piece>, p: Piece)
    requires Apart(pieces) && forall i :: PieceHas(p, i) ==> !Held(pieces, i)
    ensures Apart(pieces + [p])
    ensures forall i :: Held(pieces + [p], i) <==> Held(pieces, i) || PieceHas(p, i)
  {
    var next := pieces + [p];
    forall a, b, i | 0 <= a < b < |next| && PieceHas(next[a], i) ensures !PieceHas(next[b], i) {
      assert pieces[a] in pieces;
    }
    assert p in next && forall q :: q in next <==> q in pieces || q == p;
  }

  /** The uploads one write adds: its parts no later write covers. */
  method CutGaps(writes: seq<Piece>, k: nat, gaps: seq<Interval>, pieces: seq<Piece>) returns (next: seq<Piece>)
    requires k < |writes| && Resolves(pieces, writes, k + 1) && Canonical(gaps)
    requires forall i :: Has(gaps, i) <==> PieceHas(writes[k], i) && !CoveredFrom(writes, k + 1, i)
    ensures Resolves(next, writes, k)
  {
    next := pieces;
    forall p | p in pieces ensures Agrees(p, writes, k) { AgreesEarlier(p, writes, k); }
    for g := 0 to |gaps|
      invariant forall p :: p in next ==> Agrees(p, writes, k)
      invariant forall i :: Held(next, i) <==> Held(pieces, i) || Has(gaps[..g], i)
      invariant Apart(next)
    {
      GapInside(writes[k], gaps, g);
      GapApart(writes, k, gaps, g, pieces);
      CutAgrees(writes, k, gaps[g]);
      ApartPush(next, Cut(writes[k], gaps[g]));
      PushedHas(gaps[..g], gaps[g]);
      assert gaps[..g + 1] == gaps[..g] + [gaps[g]];
      next := next + [Cut(writes[k], gaps[g])];
    }
    assert gaps[..|gaps|] == gaps;
    forall i | CoveredFrom(writes, k, i) ensures Held(next, i) { CoveredStep(writes, k, i); }
  }

  lemma GapInside(w: Piece, gaps: seq<Interval>, g: nat)
    requires g < |gaps| && Canonical(gaps) && forall i :: Has(gaps, i) ==> PieceHas(w, i)
    ensures w.offset <= gaps[g].begin < gaps[g].end <= w.offset + |w.data|
  {
    assert Contains(gaps[g], gaps[g].begin) && Contains(gaps[g], gaps[g].end - 1);
    assert Has(gaps, gaps[g].begin) && Has(gaps, gaps[g].end - 1);
  }

  lemma GapApart(writes: seq<Piece>, k: nat, gaps: seq<Interval>, g: nat, pieces: seq<Piece>)
    requires g < |gaps| && Canonical(gaps) && k < |writes| && (forall p :: p in pieces ==> Agrees(p, writes, k + 1))
    requires forall i :: Has(gaps, i) ==> !CoveredFrom(writes, k + 1, i)
    ensures forall i :: Contains(gaps[g], i) ==> !CoveredFrom(writes, k + 1, i) && !Held(pieces, i) && !Has(gaps[..g], i)
  {
    forall i | Contains(gaps[g], i) ensures !CoveredFrom(writes, k + 1, i) && !Held(pieces, i) && !Has(gaps[..g], i) {
      assert Has(gaps, i);
    }
  }

  /** The reverse walk over the delta's writes. */
  method Resolve(writes: seq<Piece>) returns (uploads: seq<Piece>, delta: ByteIntervals)
    ensures fresh(delta) && Canonical(delta.intervals)
    ensures Resolves(uploads, writes, 0)
    ensures forall i :: Has(delta.intervals, i) <==> CoveredFrom(writes, 0, i)
  {
    delta := new ByteIntervals();
    uploads := [];
    var k := |writes|;
    while k != 0
      invariant 0 <= k <= |writes| && Canonical(delta.intervals) && fresh(delta)
      invariant Resolves(uploads, writes, k)
      invariant forall i :: Has(delta.intervals, i) <==> CoveredFrom(writes, k, i)
    {
      k := k - 1;
      var w := writes[k];
      var gaps := delta.ForEachGap(w.offset, w.offset + |w.data|);
      uploads := CutGaps(writes, k, gaps, uploads);
      delta.Add(w.offset, w.offset + |w.data|);
      forall i ensures Has(delta.intervals, i) <==> CoveredFrom(writes, k, i) { CoveredStep(writes, k, i); }
    }
  }

  // ---- sorting the uploads ----

  predicate ByOffset(pieces: seq<Piece>) {
    forall a, b :: 0 <= a < b < |pieces| ==> pieces[a].offset <= pieces[b].offset
  }

  function Insert(sorted: seq<Piece>, p: Piece): seq<Piece> {
    if sorted == [] || p.offset < sorted[0].offset then [p] + sorted else [sorted[0]] + Insert(sorted[1..], p)
  }

  lemma {:induction false} InsertKeeps(sorted: seq<Piece>, p: Piece)
    requires ByOffset(sorted) && Apart(sorted) && forall i :: PieceHas(p, i) ==> !Held(sorted, i)
    ensures ByOffset(Insert(sorted, p)) && Apart(Insert(sorted, p))
    ensures forall q :: q in Insert(sorted, p) <==> q in sorted || q == p
  {
    if sorted == [] {
    } else if p.offset < sorted[0].offset {
      FrontApart(p, sorted);
    } else {
      var first, rest := sorted[0], sorted[1..];
      assert sorted == [first] + rest;
      assert forall q :: q in rest ==> q in sorted;
      InsertKeeps(rest, p);
      FirstApart(sorted);
      FrontApart(first, Insert(rest, p));
      assert forall b :: 0 <= b < |Insert(rest, p)| ==> Insert(rest, p)[b] in Insert(rest, p);
    }
  }

  lemma FirstApart(sorted: seq<Piece>)
    requires sorted != [] && Apart(sorted)
    ensures forall i :: PieceHas(sorted[0], i) ==> !Held(sorted[1..], i)
  {
    forall i | PieceHas(sorted[0], i) ensures !Held(sorted[1..], i) {
      forall q | q in sorted[1..] ensures !PieceHas(q, i) {
        var b :| 0 <= b < |sorted[1..]| && sorted[1..][b] == q;
        assert sorted[b + 1] == q;
      }
    }
  }

  lemma FrontApart(p: Piece, pieces: seq<Piece>)
    requires Apart(pieces) && forall i :: PieceHas(p, i) ==> !Held(pieces, i)
    ensures Apart([p] + pieces)
  {
    var next := [p] + pieces;
    forall a, b, i | 0 <= a < b < |next| && PieceHas(next[a], i) ensures !PieceHas(next[b], i) {
      assert next[b] == pieces[b - 1] && next[b] in pieces;
    }
  }

  function Sort(pieces: seq<Piece>): seq<Piece> {
    if pieces == [] then [] else Insert(Sort(pieces[..|pieces| - 1]), pieces[|pieces| - 1])
  }

  /** Sorting keeps the pieces and that no two touch a byte: they follow one another. */
  lemma {:induction false} SortKeeps(pieces: seq<Piece>)
    requires Apart(pieces)
    ensures ByOffset(Sort(pieces)) && Apart(Sort(pieces))
    ensures forall q :: q in Sort(pieces) <==> q in pieces
  {
    if pieces != [] {
      var before, last := pieces[..|pieces| - 1], pieces[|pieces| - 1];
      SortKeeps(before);
      forall i | PieceHas(last, i) ensures !Held(Sort(before), i) {
        forall q | q in before ensures !PieceHas(q, i) {
          var a :| 0 <= a < |before| && before[a] == q;
          assert pieces[a] == q;
        }
      }
      InsertKeeps(Sort(before), last);
      assert forall q :: q in pieces <==> q in before || q == last;
    }
  }

  lemma SortedResolves(pieces: seq<Piece>, writes: seq<Piece>)
    requires Resolves(pieces, writes, 0)
    ensures Resolves(Sort(pieces), writes, 0)
    ensures forall a :: 0 <= a < |Sort(pieces)| - 1 ==> Sort(pieces)[a].offset + |Sort(pieces)[a].data| <= Sort(pieces)[a + 1].offset
  {
    SortKeeps(pieces);
    var sorted := Sort(pieces);
    forall a | 0 <= a < |sorted| - 1 ensures sorted[a].offset + |sorted[a].data| <= sorted[a + 1].offset {
      assert sorted[a] in sorted && sorted[a + 1] in sorted;
      assert Agrees(sorted[a + 1], writes, 0) && PieceHas(sorted[a + 1], sorted[a + 1].offset);
    }
  }
}
