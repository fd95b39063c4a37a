/** What the root of a history tree says about the blocks below it. */
module HistoryRoot {
  import opened Mountains
  import opened TreeView

  function WorkOf(leaves: seq<NodeData>): nat {
    if leaves == [] then 0 else WorkOf(leaves[..|leaves| - 1]) + leaves[|leaves| - 1].totalWork
  }

  function SaplingTxOf(leaves: seq<NodeData>): nat {
    if leaves == [] then 0 else SaplingTxOf(leaves[..|leaves| - 1]) + leaves[|leaves| - 1].saplingTx
  }

  /** Starts like the first block, ends like the last one, and adds up work and transactions. */
  ghost predicate Summarises(d: NodeData, leaves: seq<NodeData>) {
    leaves != [] && var a, z := leaves[0], leaves[|leaves| - 1];
    && d.branchId == a.branchId
    && d.startTime == a.startTime && d.endTime == z.endTime
    && d.startTarget == a.startTarget && d.endTarget == z.endTarget
    && d.startSaplingRoot == a.startSaplingRoot && d.endSaplingRoot == z.endSaplingRoot
    && d.startHeight == a.startHeight && d.endHeight == z.endHeight
    && d.totalWork == WorkOf(leaves) && d.saplingTx == SaplingTxOf(leaves)
  }

  lemma {:induction false} SumsSplit(a: seq<NodeData>, b: seq<NodeData>)
    ensures WorkOf(a + b) == WorkOf(a) + WorkOf(b) && SaplingTxOf(a + b) == SaplingTxOf(a) + SaplingTxOf(b)
  {
    if b == [] {
      assert a + b == a;
    } else {
      var n := |b| - 1;
      SumsSplit(a, b[..n]);
      Snoc(a + b[..n], b[n]);
      assert a + b == a + b[..n] + [b[n]];
    }
  }

  lemma CombineSummarises(l: NodeData, ls: seq<NodeData>, r: NodeData, rs: seq<NodeData>)
    requires Summarises(l, ls) && Summarises(r, rs)
    ensures Summarises(Combine(l, r), ls + rs)
  {
    hide WorkOf, SaplingTxOf;
    SumsSplit(ls, rs);
  }

  lemma {:induction false} DataSummarises(t: Mountain)
    ensures Summarises(Data(t), Leaves(t))
  {
    match t
    case Leaf(d) => assert [d][..0] == [];
    case Node(l, r) =>
      DataSummarises(l);
      DataSummarises(r);
      CombineSummarises(Data(l), Leaves(l), Data(r), Leaves(r));
  }

  /** The bagged root summarises every block of the range. */
  lemma {:induction false} RootSummarises(ps: seq<Mountain>)
    requires ps != []
    ensures Summarises(RootData(ps), LeavesAll(ps))
  {
    var n := |ps| - 1;
    DataSummarises(ps[n]);
    if n == 0 {
      assert ps == [ps[0]];
      LeavesOne(ps[0]);
    } else {
      RootSummarises(ps[..n]);
      CombineSummarises(RootData(ps[..n]), LeavesAll(ps[..n]), Data(ps[n]), Leaves(ps[n]));
    }
  }

  // ---- The root commits to the blocks ----

  /** An inner node hashes its left half first, then its right half. */
  lemma NodeHashes(l: Mountain, r: Mountain)
    ensures Data(Node(l, r)).commitment == ChildrenHash(Data(l), Data(r))
  {
  }

  /** The bagged root hashes the bag of all peaks but the last first, then the last peak. */
  lemma RootHashes(ps: seq<Mountain>)
    requires |ps| > 1
    ensures RootData(ps).commitment == ChildrenHash(RootData(ps[..|ps| - 1]), Data(ps[|ps| - 1]))
  {
  }

  /** Either way the root is the hash of its two children, unless it is a single block. */
  lemma RootHashesChildren(ps: seq<Mountain>)
    requires ps != []
    ensures var n := |ps| - 1;
            if n > 0 then RootData(ps).commitment == ChildrenHash(RootData(ps[..n]), Data(ps[n]))
            else ps[0].Node? ==> RootData(ps).commitment == ChildrenHash(Data(ps[0].left), Data(ps[0].right))
  {
    if |ps| > 1 {
      RootHashes(ps);
    } else if ps[0].Node? {
      NodeHashes(ps[0].left, ps[0].right);
    }
  }

  /** Blocks carry block hashes; only inner nodes carry the hash of their children. */
  ghost predicate Blocks(leaves: seq<NodeData>) {
    forall i :: 0 <= i < |leaves| ==> leaves[i].commitment.BlockHash?
  }

  lemma BlocksSplit(a: seq<NodeData>, b: seq<NodeData>)
    requires Blocks(a + b)
    ensures Blocks(a) && Blocks(b)
  {
    assert forall i :: 0 <= i < |a| ==> a[i] == (a + b)[i];
    assert forall i :: 0 <= i < |b| ==> b[i] == (a + b)[|a| + i];
  }

  lemma {:induction false} DataCommits(t: Mountain, u: Mountain)
    requires Data(t) == Data(u) && Blocks(Leaves(t)) && Blocks(Leaves(u))
    ensures t == u
    decreases t
  {
    assert t.Leaf? ==> Leaves(t)[0] == t.leaf;
    assert u.Leaf? ==> Leaves(u)[0] == u.leaf;
    if t.Node? && u.Node? {
      BlocksSplit(Leaves(t.left), Leaves(t.right));
      BlocksSplit(Leaves(u.left), Leaves(u.right));
      assert Data(t).commitment == ChildrenHash(Data(t.left), Data(t.right));
      assert Data(u).commitment == ChildrenHash(Data(u.left), Data(u.right));
      DataCommits(t.left, u.left);
      DataCommits(t.right, u.right);
    }
  }

  /** The peaks hung under one root, as the bagging does. */
  function Bagged(ps: seq<Mountain>): Mountain
    requires ps != []
  {
    if |ps| == 1 then ps[0] else Node(Bagged(ps[..|ps| - 1]), ps[|ps| - 1])
  }

  lemma {:induction false} BaggedIsRoot(ps: seq<Mountain>)
    requires ps != []
    ensures Data(Bagged(ps)) == RootData(ps) && Leaves(Bagged(ps)) == LeavesAll(ps)
  {
    if |ps| == 1 {
      assert ps == [ps[0]];
      LeavesOne(ps[0]);
    } else {
      BaggedIsRoot(ps[..|ps| - 1]);
    }
  }

  /** Two ranges with the same root hold the same blocks in the same order, hence are the same range. */
  lemma RootCommits(ps: seq<Mountain>, qs: seq<Mountain>)
    requires Range(ps) && Range(qs) && ps != [] && qs != []
    requires Blocks(LeavesAll(ps)) && Blocks(LeavesAll(qs))
    ensures RootData(ps) == RootData(qs) <==> ps == qs
    ensures ps == qs <==> LeavesAll(ps) == LeavesAll(qs)
  {
    BaggedIsRoot(ps);
    BaggedIsRoot(qs);
    if RootData(ps) == RootData(qs) {
      DataCommits(Bagged(ps), Bagged(qs));
    }
    RangeIsBuild(ps);
    RangeIsBuild(qs);
  }
}
