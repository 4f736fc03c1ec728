/** `Copypaste` (astexplorer/copypaste.py): one run of matching statements
    found in two functions, with its length and accumulated weight. */
module Copypastes {
  import opened BriefNodes
  import opened FuncTrees

  /** The total weight of a list of nodes. */
  function WeightOf(s: seq<Node>): int
  {
    if s == [] then 0 else WeightOf(s[..|s| - 1]) + s[|s| - 1].weight
  }

  class Copypaste {
    const funcA: FuncTree
    const funcB: FuncTree
    const nodeA: Node
    const nodeB: Node
    var count: int
    var weight: int
    /** The nodes passed to `update`, in order. */
    ghost var updates: seq<Node>
    /** Set once the record is appended to the comparer's results, after
        which it is never updated again. */
    ghost var reported: bool

    /** `count` is one for the anchor plus one per update, and `weight` is
        the anchor's weight plus the weights of the updating nodes. */
    ghost predicate Valid()
      reads this
    {
      count == 1 + |updates| && weight == nodeA.weight + WeightOf(updates)
    }

    /** `Copypaste(func_a, func_b, node_a, node_b)`: a run of one pair. */
    constructor (funcA: FuncTree, funcB: FuncTree, nodeA: Node, nodeB: Node)
      ensures this.funcA == funcA && this.funcB == funcB
      ensures this.nodeA == nodeA && this.nodeB == nodeB
      ensures count == 1 && weight == nodeA.weight && updates == [] && !reported
      ensures Valid()
    {
      this.funcA := funcA;
      this.funcB := funcB;
      this.nodeA := nodeA;
      this.nodeB := nodeB;
      count := 1;
      weight := nodeA.weight;
      updates := [];
      reported := false;
    }

    /** `update(node_a)`: the run grows by one pair. */
    method Update(a: Node)
      requires Valid()
      modifies this
      ensures count == old(count) + 1 && weight == old(weight) + a.weight
      ensures updates == old(updates) + [a] && reported == old(reported)
      ensures Valid()
    {
      count := count + 1;
      weight := weight + a.weight;
      updates := updates + [a];
      assert updates[..|updates| - 1] == old(updates);
    }

    /** Records that the run was appended to the comparer's results. */
    ghost method MarkReported()
      modifies this
      ensures reported
      ensures count == old(count) && weight == old(weight) && updates == old(updates)
    {
      reported := true;
    }
  }

  /** The weight of two lists one after the other is the sum of their
      weights. */
  lemma {:induction false} WeightOfAppend(s: seq<Node>, t: seq<Node>)
    ensures WeightOf(s + t) == WeightOf(s) + WeightOf(t)
    decreases |t|
  {
    if t != [] {
      WeightOfAppend(s, t[..|t| - 1]);
      assert (s + t)[..|s + t| - 1] == s + t[..|t| - 1];
    } else {
      assert s + t == s;
    }
  }
}
