/** The unit scenarios of the IR container, each one built through the
    factory methods and checked against what the validator and the
    removal operations promise. */
module Scenarios {
  import opened CodeGen
  import Digraph

  /** The function every scenario starts from: module `name` with function
      `f1`, whose blocks `bb.0`, `bb.1` and `bb.2` are created in that
      order, `bb.0` as entry when `withEntry`, and the edge `bb.0 -> bb.1`
      tagged `true` is added before `bb.2` is created. */
  method Build(name: string, withEntry: bool)
    returns (m: Module, f: Function, bb0: BasicBlock, bb1: BasicBlock, bb2: BasicBlock)
    ensures fresh(m) && fresh(f) && fresh(bb0) && fresh(bb1) && fresh(bb2)
    ensures bb0 != bb1 && bb1 != bb2 && bb0 != bb2
    ensures m.Functions == map["f1" := f]
    ensures f.FunctionID == "f1" && f.EntryBB == (if withEntry then bb0 else null)
    ensures f.BasicBlocks == map["bb.0" := bb0, "bb.1" := bb1, "bb.2" := bb2]
    ensures bb0.BasicBlockID == "bb.0" && bb1.BasicBlockID == "bb.1" && bb2.BasicBlockID == "bb.2"
    ensures bb0.Parent == f && bb1.Parent == f && bb2.Parent == f
    ensures bb0.Successors == map["true" := bb1]
    ensures bb1.Successors == map[] && bb2.Successors == map[]
  {
    var status: Status;
    m := Module.Create(name);
    f, status := Function.Create("f1", m);
    bb0, status := BasicBlock.Create("bb.0", f, withEntry);
    bb1, status := BasicBlock.Create("bb.1", f);
    status := bb0.AddSuccessor("true", bb1);
    bb2, status := BasicBlock.Create("bb.2", f);
  }

  /** In a graph with the edges `a -> b -> c`, all three are reached from `a`. */
  lemma ChainReachesAll<T>(g: map<T, set<T>>, a: T, b: T, c: T)
    requires a in g && b in g && c in g && b in g[a] && c in g[b]
    ensures Digraph.ReachesAll(g, a, {a, b, c})
  {
    Digraph.ReachableSelf(g, a);
    Digraph.ReachableSelf(g, b);
    Digraph.ReachableSelf(g, c);
    Digraph.ReachableStep(g, b, c, c);
    Digraph.ReachableStep(g, a, b, c);
    Digraph.ReachableStep(g, a, b, b);
  }

  /** A successor table with one edge leads to one block. */
  lemma OneSuccessor(succ: map<string, BasicBlock>, tag: string, b: BasicBlock)
    requires succ == map[tag := b]
    ensures succ.Values == {b}
  {
    assert succ[tag] == b;
  }

  /** The registered blocks of a built function are its three blocks. */
  lemma ThreeBlocks(blocks: map<string, BasicBlock>, bb0: BasicBlock, bb1: BasicBlock, bb2: BasicBlock)
    requires blocks == map["bb.0" := bb0, "bb.1" := bb1, "bb.2" := bb2]
    ensures blocks.Values == {bb0, bb1, bb2}
  {
    assert blocks["bb.0"] == bb0 && blocks["bb.1"] == bb1 && blocks["bb.2"] == bb2;
    forall b | b in blocks.Values
      ensures b in {bb0, bb1, bb2}
    {
      var k :| k in blocks && blocks[k] == b;
    }
  }

  /** `bb.0 -> bb.1 -> bb.2` with `bb.0` as entry: every block is reached,
      so the function is valid.  The registered blocks are the bound. */
  method ChainIsValid() returns (valid: bool)
    ensures valid
  {
    var _, f, bb0, bb1, bb2 := Build("m1.revLang", true);
    var _ := bb1.AddSuccessor("true", bb2);
    ghost var U := f.BasicBlocks.Values;
    ThreeBlocks(f.BasicBlocks, bb0, bb1, bb2);
    OneSuccessor(bb0.Successors, "true", bb1);
    OneSuccessor(bb1.Successors, "true", bb2);
    assert f.EdgesRegistered();
    ChainReachesAll(Cfg(U), bb0, bb1, bb2);
    valid := f.IsValid(U);
  }

  /** As above without the edge `bb.1 -> bb.2`: `bb.2` is never reached,
      so the function is not valid. */
  method UnlinkedBlockIsInvalid() returns (valid: bool)
    ensures !valid
  {
    var _, f, bb0, bb1, bb2 := Build("m1.revLang", true);
    ghost var U := {bb0, bb1, bb2};
    ThreeBlocks(f.BasicBlocks, bb0, bb1, bb2);
    OneSuccessor(bb0.Successors, "true", bb1);
    ghost var g := Cfg(U);
    assert Digraph.ClosedUnder(g, {bb0, bb1});
    if Digraph.Reachable(g, bb0, bb2) {
      Digraph.ClosedSetHoldsReachable(g, {bb0, bb1}, bb0, bb2);
    }
    valid := f.IsValid(U);
  }

  /** The same blocks and edge, but no block was made the entry: the
      function is not valid. */
  method NoEntryIsInvalid() returns (valid: bool)
    ensures !valid
  {
    var _, f, _, _, _ := Build("m1.revLang", false);
    valid := f.IsValid({});
  }

  /** Before `bb.1` is removed, the entry and every edge target are
      registered; removing it leaves the edge `bb.0 -> bb.1` pointing at a
      block that is no longer registered. */
  method RemovalLeavesDanglingEdge() returns (f: Function)
    ensures !f.EdgesRegistered()
  {
    var _, f', bb0, bb1, bb2 := Build("m2.revLang", true);
    f := f';
    ThreeBlocks(f.BasicBlocks, bb0, bb1, bb2);
    OneSuccessor(bb0.Successors, "true", bb1);
    assert f.EdgesRegistered();
    f.RemoveBasicBlock(bb1);
    assert f.BasicBlocks == map["bb.0" := bb0, "bb.2" := bb2];
    assert f.BasicBlocks["bb.0"] == bb0;
    forall b | b in f.BasicBlocks.Values
      ensures b != bb1
    {
      var k :| k in f.BasicBlocks && f.BasicBlocks[k] == b;
    }
  }

  /** The blocks of a function are removed one by one, the last while an
      edge of it still points at a removed block, and then the function
      itself: the removal succeeds and the module has no function left. */
  method CreateThenDelete() returns (status: Status, remaining: nat)
    ensures status == Ok && remaining == 0
  {
    var m, f, bb0, bb1, bb2 := Build("m2.revLang", true);
    f.RemoveBasicBlock(bb2);
    f.RemoveBasicBlock(bb1);
    f.RemoveBasicBlock(bb0);
    status := m.RemoveFunction(f);
    remaining := m.NumberOfFns();
  }
}
