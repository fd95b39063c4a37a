/** The array representation of a mountain range and the loader that finds its peaks by position. */
module MountainArray {
  import opened Mountains

  datatype EntryLink = Stored(index: nat) | Generated(index: nat)

  datatype EntryKind = LeafKind | NodeKind(left: EntryLink, right: EntryLink)

  datatype Entry = Entry(kind: EntryKind, data: NodeData)

  // ---- Peaks by position ----

  /** Positions a list of mountain heights takes up. */
  function SizeOf(hs: seq<nat>): nat {
    if hs == [] then 0 else SizeOf(hs[..|hs| - 1]) + Pow2(hs[|hs| - 1] + 1) - 1
  }

  /** Leaves under a list of mountain heights. */
  function LeafTotal(hs: seq<nat>): nat {
    if hs == [] then 0 else LeafTotal(hs[..|hs| - 1]) + Pow2(hs[|hs| - 1])
  }

  ghost predicate Falling(hs: seq<nat>) {
    forall i, j :: 0 <= i < j < |hs| ==> hs[i] > hs[j]
  }

  function Log2(m: nat): (r: nat)
    requires m >= 1
    ensures Pow2(r) <= m < Pow2(r + 1)
  {
    if m == 1 then 0 else Log2(m / 2) + 1
  }

  /** Take the highest mountain of height at most `h` that still fits, then go on behind it. */
  function Greedy(n: nat, h: nat): seq<nat>
    decreases h, n
  {
    if Pow2(h + 1) - 1 <= n
    then [h] + if h == 0 then [] else Greedy(n - (Pow2(h + 1) - 1), h)
    else if h == 0 then [] else Greedy(n, h - 1)
  }

  /** Heights of the peaks the loader drafts for an array of `n` nodes. */
  function PeakHeights(n: nat): (hs: seq<nat>)
    requires n >= 1
    ensures hs != []
  {
    Greedy(n, Log2(n + 1) - 1)
  }

  /** Node at 1-based position `pos` and height `h`: its left child ends 2^h positions before it,
      its right child just before it. */
  function Draft(vec: seq<NodeData>, pos: nat, h: nat): (nat, Entry)
    requires Pow2(h + 1) - 1 <= pos <= |vec|
  {
    var kind := if h == 0 then LeafKind
                else NodeKind(Stored(pos - Pow2(h) - 1), Stored(pos - 2));
    (pos - 1, Entry(kind, vec[pos - 1]))
  }

  /** One draft per mountain, each placed right behind the previous ones. */
  function DraftAll(vec: seq<NodeData>, hs: seq<nat>): seq<(nat, Entry)>
    requires SizeOf(hs) <= |vec|
  {
    if hs == [] then [] else
      DraftAll(vec, hs[..|hs| - 1]) + [Draft(vec, SizeOf(hs), hs[|hs| - 1])]
  }

  /** Both children of every inner node on the right slope under the node at `pos`. */
  function DraftSlope(vec: seq<NodeData>, pos: nat, h: nat): seq<(nat, Entry)>
    requires Pow2(h + 1) - 1 <= pos <= |vec|
  {
    if h == 0 then [] else
      [Draft(vec, pos - Pow2(h), h - 1), Draft(vec, pos - 1, h - 1)] + DraftSlope(vec, pos - 1, h - 1)
  }

  /** The peak loop's state: `hs` drafted so far, a mountain of height `h` tried next at `peakPos`. */
  ghost predicate AtPeak(vec: seq<NodeData>, nodes: seq<(nat, Entry)>, hs: seq<nat>, last: nat, lastH: nat,
                         peakPos: nat, h: nat)
    requires vec != []
  {
    && last == SizeOf(hs) <= |vec|
    && PeakHeights(|vec|) == hs + Greedy(|vec| - last, h)
    && nodes == DraftAll(vec, hs)
    && peakPos == last + (Pow2(h + 1) - 1)
    && (if hs == [] then peakPos <= |vec| else lastH == hs[|hs| - 1])
  }

  ghost predicate PeaksFound(vec: seq<NodeData>, nodes: seq<(nat, Entry)>, last: nat, lastH: nat)
    requires vec != []
  {
    var hs := PeakHeights(|vec|);
    && last == SizeOf(hs) <= |vec| && lastH == hs[|hs| - 1]
    && nodes == DraftAll(vec, hs)
  }

  lemma PeakStart(vec: seq<NodeData>, h: nat)
    requires vec != [] && h == Log2(|vec| + 1) - 1
    ensures AtPeak(vec, [], [], 0, 0, Pow2(h + 1) - 1, h)
  {
    assert [] + PeakHeights(|vec|) == PeakHeights(|vec|);
  }

  /** A mountain of height `h` does not fit: try its left child. */
  lemma PeakDown(vec: seq<NodeData>, nodes: seq<(nat, Entry)>, hs: seq<nat>, last: nat, lastH: nat, peakPos: nat,
                 h: nat)
    requires vec != [] && h > 0 && peakPos > |vec| && AtPeak(vec, nodes, hs, last, lastH, peakPos, h)
    ensures peakPos >= Pow2(h) + Pow2(h) - 1
    ensures AtPeak(vec, nodes, hs, last, lastH, peakPos - Pow2(h), h - 1)
  {
    hide SizeOf, DraftAll, Draft, PeakHeights;
  }

  /** It fits: draft it and go on to its right sibling, or stop at height 0. */
  lemma PeakTake(vec: seq<NodeData>, nodes: seq<(nat, Entry)>, hs: seq<nat>, last: nat, lastH: nat, peakPos: nat,
                 h: nat)
    requires vec != [] && Pow2(h + 1) - 1 <= peakPos <= |vec| && AtPeak(vec, nodes, hs, last, lastH, peakPos, h)
    ensures h > 0 ==>
      AtPeak(vec, nodes + [Draft(vec, peakPos, h)], hs + [h], peakPos, h, peakPos + Pow2(h + 1) - 1, h)
    ensures h == 0 ==> PeaksFound(vec, nodes + [Draft(vec, peakPos, h)], peakPos, h)
  {
    DraftAllSnoc(vec, hs, h, peakPos);
    hide Greedy, SizeOf, DraftAll, Draft, PeakHeights;
    var tail := if h == 0 then [] else Greedy(|vec| - peakPos, h);
    GreedyTakes(|vec| - last, h, tail);
    Snoc(hs, h);
    Assoc(hs, [h], tail);
    if h == 0 {
      assert hs + [h] + tail == hs + [h];
    }
  }

  lemma GreedyTakes(n: nat, h: nat, tail: seq<nat>)
    requires Pow2(h + 1) - 1 <= n
    requires tail == if h == 0 then [] else Greedy(n - (Pow2(h + 1) - 1), h)
    ensures Greedy(n, h) == [h] + tail
  {
  }

  lemma DraftAllSnoc(vec: seq<NodeData>, hs: seq<nat>, h: nat, pos: nat)
    requires SizeOf(hs) + (Pow2(h + 1) - 1) == pos <= |vec|
    ensures SizeOf(hs + [h]) == pos
    ensures DraftAll(vec, hs + [h]) == DraftAll(vec, hs) + [Draft(vec, pos, h)]
  {
    Snoc(hs, h);
  }

  /** Nothing is left to try. */
  lemma PeakEnd(vec: seq<NodeData>, nodes: seq<(nat, Entry)>, hs: seq<nat>, last: nat, lastH: nat, peakPos: nat)
    requires vec != [] && peakPos > |vec| && AtPeak(vec, nodes, hs, last, lastH, peakPos, 0)
    ensures PeaksFound(vec, nodes, last, lastH)
  {
    assert hs + [] == hs;
  }

  /** Peak loop. Runs for every non-empty array, legal length or not; the `nat` variables show that
      neither position nor height ever underflows. */
  method FindPeaks(vec: seq<NodeData>) returns (nodes: seq<(nat, Entry)>, lastPeakPos: nat, lastPeakH: nat)
    requires 1 <= |vec| && |vec| + 1 < 0x1_0000_0000
    ensures PeaksFound(vec, nodes, lastPeakPos, lastPeakH)
  {
    hide AtPeak, PeaksFound, Draft, DraftAll, Greedy, SizeOf;
    var n := |vec|;
    var h: nat := Log2(n + 1) - 1;
    var peakPos: nat := Pow2(h + 1) - 1;
    nodes := [];
    lastPeakPos, lastPeakH := 0, 0;
    ghost var hs: seq<nat> := [];
    PeakStart(vec, h);
    while true
      invariant AtPeak(vec, nodes, hs, lastPeakPos, lastPeakH, peakPos, h)
      invariant peakPos >= Pow2(h + 1) - 1 && (h == 0 ==> peakPos <= n)
      decreases h, if peakPos <= n then n + 1 - peakPos else 0
    {
      if peakPos > n {
        PeakDown(vec, nodes, hs, lastPeakPos, lastPeakH, peakPos, h);
        peakPos := peakPos - Pow2(h);
        h := h - 1;
      }
      if peakPos <= n {
        PeakTake(vec, nodes, hs, lastPeakPos, lastPeakH, peakPos, h);
        nodes := nodes + [Draft(vec, peakPos, h)];
        hs := hs + [h];
        lastPeakPos, lastPeakH := peakPos, h;
        peakPos := peakPos + Pow2(h + 1) - 1;
      } else if h == 0 {
        PeakEnd(vec, nodes, hs, lastPeakPos, lastPeakH, peakPos);
      }
      if h == 0 {
        break;
      }
    }
  }

  lemma SlopeStep(vec: seq<NodeData>, extra: seq<(nat, Entry)>, pos: nat, h: nat, all: seq<(nat, Entry)>)
    requires h > 0 && Pow2(h + 1) - 1 <= pos <= |vec| && extra + DraftSlope(vec, pos, h) == all
    ensures Pow2(h) - 1 <= pos - Pow2(h) && Pow2(h) - 1 <= pos - 1
    ensures extra + [Draft(vec, pos - Pow2(h), h - 1)] + [Draft(vec, pos - 1, h - 1)] +
            DraftSlope(vec, pos - 1, h - 1) == all
  {
    var l, r, rest := Draft(vec, pos - Pow2(h), h - 1), Draft(vec, pos - 1, h - 1), DraftSlope(vec, pos - 1, h - 1);
    assert extra + [l] + [r] + rest == extra + ([l, r] + rest);
  }

  lemma SlopeEnd(vec: seq<NodeData>, extra: seq<(nat, Entry)>, pos: nat, all: seq<(nat, Entry)>)
    requires 1 <= pos <= |vec| && extra + DraftSlope(vec, pos, 0) == all
    ensures extra == all
  {
    assert extra + [] == extra;
  }

  /** Right-slope loop: pre-loads what a deletion needs. */
  method LoadSlope(vec: seq<NodeData>, lastPeakPos: nat, lastPeakH: nat) returns (extra: seq<(nat, Entry)>)
    requires Pow2(lastPeakH + 1) - 1 <= lastPeakPos <= |vec|
    ensures extra == DraftSlope(vec, lastPeakPos, lastPeakH)
  {
    hide Draft, DraftSlope;
    extra := [];
    var h, peakPos := lastPeakH, lastPeakPos;
    ghost var all := DraftSlope(vec, peakPos, h);
    assert [] + all == all;
    while h > 0
      invariant Pow2(h + 1) - 1 <= peakPos <= |vec|
      invariant extra + DraftSlope(vec, peakPos, h) == all
    {
      SlopeStep(vec, extra, peakPos, h, all);
      var leftPos, rightPos := peakPos - Pow2(h), peakPos - 1;
      h := h - 1;
      extra := extra + [Draft(vec, leftPos, h)];
      extra := extra + [Draft(vec, rightPos, h)];
      peakPos := rightPos;
    }
    SlopeEnd(vec, extra, peakPos, all);
  }

  /** Drafts the peaks and the right slope of the last one. */
  method DraftNodes(vec: seq<NodeData>) returns (nodes: seq<(nat, Entry)>, extra: seq<(nat, Entry)>)
    requires 1 <= |vec| && |vec| + 1 < 0x1_0000_0000
    ensures var hs := PeakHeights(|vec|);
            && PeaksFound(vec, nodes, SizeOf(hs), hs[|hs| - 1])
            && extra == DraftSlope(vec, SizeOf(hs), hs[|hs| - 1])
  {
    var lastPeakPos: nat, lastPeakH: nat;
    nodes, lastPeakPos, lastPeakH := FindPeaks(vec);
    extra := LoadSlope(vec, lastPeakPos, lastPeakH);
  }
}
