/** The revLANG IR container: a Module owns name-keyed Functions, a Function
    owns name-keyed BasicBlocks and designates an entry block, and a
    BasicBlock holds tag-keyed successor edges to blocks of the same
    Function.  Entities are objects, as in the C++ code: the parent links
    and the successor edges are references, not copies.

    An operation whose C++ body guards itself with `assert` returns a
    `Status`; `AssertionFailed(m)` stands for the abort with message `m`. */
module CodeGen {
  import opened KeyOrder
  import Digraph
  import opened DepthFirst
  import opened Printing

  datatype Status = Ok | AssertionFailed(message: string)

  // ---------------------------------------------------------------------
  // The control-flow graph seen by the validator
  // ---------------------------------------------------------------------

  /** The successor graph restricted to the blocks of `U`. */
  ghost function Cfg(U: set<BasicBlock>): map<BasicBlock, set<BasicBlock>>
    reads U
  {
    map b | b in U :: b.Successors.Values
  }

  /** No successor edge of a block in `U` leaves `U`. */
  ghost predicate SuccessorClosed(U: set<BasicBlock>)
    reads U
  {
    forall b :: b in U ==> b.Successors.Values <= U
  }

  /** `g` is the successor graph of its own blocks as they are now, and no
      edge leaves it.  `IsValid` takes `Cfg(U)` once, before its search,
      and hands that snapshot to `Traverse` as a plain map: the search's
      termination measure needs a fixed vertex set (`g.Keys`), and the
      search lemmas of `DepthFirst` are about maps, not the heap.  The
      search changes no block, so the snapshot stays current. */
  ghost predicate CurrentCfg(g: map<BasicBlock, set<BasicBlock>>)
    reads g.Keys
  {
    && (forall b :: b in g ==> g[b] == b.Successors.Values)
    && Digraph.ClosedUnder(g, g.Keys)
  }

  /** The snapshot `IsValid` takes is such a graph. */
  lemma CfgOfClosedSet(U: set<BasicBlock>)
    requires SuccessorClosed(U)
    ensures Cfg(U).Keys == U && CurrentCfg(Cfg(U))
  {
  }

  /** Reachability from `e` does not depend on which successor-closed set
      holding `e` the graph is cut down to: a walk from `e` never leaves
      either set. */
  lemma ReachableInAnyClosedSet(U1: set<BasicBlock>, U2: set<BasicBlock>, e: BasicBlock, b: BasicBlock)
    requires SuccessorClosed(U1) && SuccessorClosed(U2) && e in U1 && e in U2
    requires Digraph.Reachable(Cfg(U1), e, b)
    ensures Digraph.Reachable(Cfg(U2), e, b)
  {
    var g1, g2 := Cfg(U1), Cfg(U2);
    var p :| Digraph.IsPath(g1, p) && p[0] == e && p[|p| - 1] == b;
    forall n | 0 <= n < |p|
      ensures p[n] in U2
    {
      Digraph.PathStaysInClosedSet(g1, U2, p, n);
    }
    assert Digraph.IsPath(g2, p);
  }

  /** The validator's verdict is the same for every admissible `U`. */
  lemma VerdictIndependentOfBound(U1: set<BasicBlock>, U2: set<BasicBlock>, e: BasicBlock, s: set<BasicBlock>)
    requires SuccessorClosed(U1) && SuccessorClosed(U2) && e in U1 && e in U2
    ensures Digraph.ReachesAll(Cfg(U1), e, s) <==> Digraph.ReachesAll(Cfg(U2), e, s)
  {
    forall b | Digraph.Reachable(Cfg(U1), e, b)
      ensures Digraph.Reachable(Cfg(U2), e, b)
    {
      ReachableInAnyClosedSet(U1, U2, e, b);
    }
    forall b | Digraph.Reachable(Cfg(U2), e, b)
      ensures Digraph.Reachable(Cfg(U1), e, b)
    {
      ReachableInAnyClosedSet(U2, U1, e, b);
    }
  }

  /** Registering a block under a new name adds it to the registered blocks. */
  lemma InsertedValues(blocks: map<string, BasicBlock>, k: string, b: BasicBlock)
    requires k !in blocks
    ensures blocks[k := b].Values == blocks.Values + {b}
  {
    var r := blocks[k := b];
    assert r[k] == b;
    forall x | x in blocks.Values
      ensures x in r.Values
    {
      var j :| j in blocks && blocks[j] == x;
      assert r[j] == x;
    }
  }

  /** The visited map `Function::isValid` builds before its search: the
      blocks under `keys[i..]` inserted unvisited, the last key first; an
      insertion of a block already in the map keeps the entry there. */
  function UnvisitedFrom(blocks: map<string, BasicBlock>, keys: seq<string>, i: nat): map<BasicBlock, bool>
    requires i <= |keys| && KeysIn(keys, blocks)
    decreases |keys| - i
  {
    if i == |keys| then map[]
    else
      var m := UnvisitedFrom(blocks, keys, i + 1);
      var b := blocks[keys[i]];
      if b in m then m else m[b := false]
  }

  lemma {:induction false} UnvisitedFromHolds(blocks: map<string, BasicBlock>, keys: seq<string>, i: nat)
    requires i <= |keys| && KeysIn(keys, blocks)
    ensures Marked(UnvisitedFrom(blocks, keys, i)) == {}
    ensures UnvisitedFrom(blocks, keys, i).Keys <= blocks.Values
    ensures forall j :: i <= j < |keys| ==> blocks[keys[j]] in UnvisitedFrom(blocks, keys, i)
    decreases |keys| - i
  {
    if i < |keys| {
      UnvisitedFromHolds(blocks, keys, i + 1);
    }
  }

  /** Before the search, every registered block is in the visited map,
      unvisited, and nothing else is. */
  lemma RegisteredUnvisited(blocks: map<string, BasicBlock>, keys: seq<string>)
    requires keys == SortedKeys(blocks.Keys)
    ensures UnvisitedFrom(blocks, keys, 0).Keys == blocks.Values
    ensures Marked(UnvisitedFrom(blocks, keys, 0)) == {}
  {
    var visited := UnvisitedFrom(blocks, keys, 0);
    UnvisitedFromHolds(blocks, keys, 0);
    SortedKeysSpec(blocks.Keys);
    forall b | b in blocks.Values
      ensures b in visited
    {
      var k :| k in blocks && blocks[k] == b;
      var j :| 0 <= j < |keys| && keys[j] == k;
    }
  }

  // ---------------------------------------------------------------------
  // What the printers read
  // ---------------------------------------------------------------------

  /** The names of the targets of a successor table, tag by tag. */
  function SuccessorNames(succ: map<string, BasicBlock>): (names: map<string, string>)
    ensures names.Keys == succ.Keys
  {
    map t | t in succ :: succ[t].BasicBlockID
  }

  /** The current state of the blocks of a block table. */
  function ViewOfBlocks(blocks: map<string, BasicBlock>): (v: map<string, BlockView>)
    reads blocks.Values
    ensures v.Keys == blocks.Keys
  {
    map k | k in blocks :: BlockView(blocks[k].BasicBlockID, SuccessorNames(blocks[k].Successors))
  }

  /** Every block owned by a function of `fns`. */
  ghost function BlocksOf(fns: map<string, Function>): set<BasicBlock>
    reads fns.Values
  {
    set f, b | f in fns.Values && b in f.BasicBlocks.Values :: b
  }

  /** The current state of the functions of a function table. */
  function ViewOfFunctions(fns: map<string, Function>): (v: map<string, FunctionView>)
    reads fns.Values, BlocksOf(fns)
    ensures v.Keys == fns.Keys
  {
    map k | k in fns :: FunctionView(fns[k].FunctionID, ViewOfBlocks(fns[k].BasicBlocks))
  }

  // ---------------------------------------------------------------------
  // BasicBlock
  // ---------------------------------------------------------------------

  class BasicBlock {
    const BasicBlockID: string
    const Parent: Function
    var Successors: map<string, BasicBlock>

    constructor (basicBlockID: string, parent: Function)
      ensures BasicBlockID == basicBlockID && Parent == parent
      ensures Successors == map[]
    {
      BasicBlockID := basicBlockID;
      Parent := parent;
      Successors := map[];
    }

    /** Allocates a block of `parent`, makes it the entry block first when
        asked to, then registers it under its name. */
    static method Create(basicBlockID: string, parent: Function, isEntryBasicBlock: bool := false)
      returns (bb: BasicBlock, status: Status)
      modifies parent
      ensures fresh(bb) && bb.BasicBlockID == basicBlockID && bb.Parent == parent
      ensures bb.Successors == map[]
      ensures parent.EntryBB == if isEntryBasicBlock then bb else old(parent.EntryBB)
      ensures status == if basicBlockID in old(parent.BasicBlocks)
                        then AssertionFailed("The basic block already exists") else Ok
      ensures parent.BasicBlocks == if status.Ok? then old(parent.BasicBlocks)[basicBlockID := bb]
                                    else old(parent.BasicBlocks)
      ensures old(parent.OwnsItsBlocks()) ==> parent.OwnsItsBlocks()
      ensures status.Ok? && old(parent.EdgesRegistered()) ==> parent.EdgesRegistered()
    {
      bb := new BasicBlock(basicBlockID, parent);
      ghost var before := parent.BasicBlocks;
      if isEntryBasicBlock {
        parent.SetEntryBB(bb);
      }
      status := parent.AddBasicBlock(basicBlockID, bb);
      if status.Ok? {
        InsertedValues(before, basicBlockID, bb);
      }
    }

    /** Every successor edge of this block stays inside its function. */
    ghost predicate EdgesStayInFunction()
      reads this
    {
      forall t :: t in Successors ==> Successors[t].Parent == Parent
    }

    function NumOfSuccessors(): (n: nat)
      reads this
      ensures n == 0 <==> Successors == map[]
    {
      |Successors|
    }

    /** Adds the edge `tag` -> `bb`; the tag must be new on this block and
        `bb` must belong to the same function. */
    method AddSuccessor(tag: string, bb: BasicBlock) returns (status: Status)
      modifies this
      ensures status == if tag in old(Successors) then AssertionFailed("The successor with the tag already exists")
                        else if Parent != bb.Parent then AssertionFailed("The parent should be the same")
                        else Ok
      ensures Successors == if status.Ok? then old(Successors)[tag := bb] else old(Successors)
      ensures old(EdgesStayInFunction()) ==> EdgesStayInFunction()
      ensures old(Parent.EdgesRegistered()) && bb in Parent.BasicBlocks.Values ==> Parent.EdgesRegistered()
    {
      if tag in Successors {
        return AssertionFailed("The successor with the tag already exists");
      }
      if Parent != bb.Parent {
        return AssertionFailed("The parent should be the same");
      }
      Successors := Successors[tag := bb];
      status := Ok;
    }

    /** The lines this block prints: the successor summary in ascending tag
        order when there are successors, then the label. */
    method Dump() returns (lines: seq<string>)
      ensures lines == BlockText(BlockView(BasicBlockID, SuccessorNames(Successors)))
    {
      lines := [];
      if NumOfSuccessors() != 0 {
        var succ := Successors;
        ghost var names := SuccessorNames(succ);
        var tags := SortedKeys(succ.Keys);
        var summary := "";
        for i := 0 to |tags|
          invariant summary == SuccessorSummary(names, tags, i)
        {
          summary := summary + SuccessorEntry(succ[tags[i]].BasicBlockID, tags[i]);
        }
        lines := [" ; Successors: " + summary];
      }
      lines := lines + [" " + BasicBlockID + ":"];
    }
  }

  // ---------------------------------------------------------------------
  // Function
  // ---------------------------------------------------------------------

  class Function {
    const FunctionID: string
    const Parent: Module
    var BasicBlocks: map<string, BasicBlock>
    var EntryBB: BasicBlock?

    constructor (functionID: string, parent: Module)
      ensures FunctionID == functionID && Parent == parent
      ensures BasicBlocks == map[] && EntryBB == null
    {
      FunctionID := functionID;
      Parent := parent;
      BasicBlocks := map[];
      EntryBB := null;
    }

    /** Allocates a function and registers it in `parent` under its name. */
    static method Create(functionID: string, parent: Module) returns (f: Function, status: Status)
      modifies parent
      ensures fresh(f) && f.FunctionID == functionID && f.Parent == parent
      ensures f.BasicBlocks == map[] && f.EntryBB == null
      ensures status == if functionID in old(parent.Functions)
                        then AssertionFailed("The function already exists") else Ok
      ensures parent.Functions == if status.Ok? then old(parent.Functions)[functionID := f]
                                  else old(parent.Functions)
    {
      f := new Function(functionID, parent);
      status := parent.AddFunction(functionID, f);
    }

    method AddBasicBlock(bbName: string, bb: BasicBlock) returns (status: Status)
      modifies this
      ensures status == if bbName in old(BasicBlocks) then AssertionFailed("The basic block already exists") else Ok
      ensures BasicBlocks == if status.Ok? then old(BasicBlocks)[bbName := bb] else old(BasicBlocks)
      ensures EntryBB == old(EntryBB)
      ensures old(EdgesRegistered()) && bb.Successors.Values <= BasicBlocks.Values ==> EdgesRegistered()
    {
      if bbName in BasicBlocks {
        return AssertionFailed("The basic block already exists");
      }
      InsertedValues(BasicBlocks, bbName, bb);
      BasicBlocks := BasicBlocks[bbName := bb];
      status := Ok;
    }

    method SetEntryBB(bb: BasicBlock?)
      modifies this
      ensures EntryBB == bb && BasicBlocks == old(BasicBlocks)
      ensures old(EdgesRegistered()) && (bb == null || bb in BasicBlocks.Values) ==> EdgesRegistered()
    {
      EntryBB := bb;
    }

    /** Every registered block belongs to this function and is registered
        under its own name. */
    ghost predicate OwnsItsBlocks()
      reads this
    {
      forall k :: k in BasicBlocks ==> BasicBlocks[k].Parent == this && BasicBlocks[k].BasicBlockID == k
    }

    /** The entry block, when set, is registered, and every edge of a
        registered block points at a registered block.  Then the registered
        blocks are a bound `IsValid` accepts.  Registering blocks, adding
        edges between registered blocks and choosing a registered entry
        keep this; removing a block that an edge still points at breaks it. */
    ghost predicate EdgesRegistered()
      reads this, BasicBlocks.Values
    {
      && (EntryBB != null ==> EntryBB in BasicBlocks.Values)
      && SuccessorClosed(BasicBlocks.Values)
    }

    function NumberOfBBs(): (n: nat)
      reads this
      ensures n == 0 <==> BasicBlocks == map[]
    {
      |BasicBlocks|
    }

    /** A function without blocks is dead and may be removed from its module. */
    predicate Empty()
      reads this
      ensures Empty() <==> BasicBlocks == map[]
    {
      NumberOfBBs() == 0
    }

    /** Erases the entry named like `bb`. Nothing else changes: no emptiness
        check, the successor edges of the other blocks that still point at
        `bb` stay, and so does an entry pointer to it. */
    method RemoveBasicBlock(bb: BasicBlock)
      modifies this
      ensures BasicBlocks == old(BasicBlocks) - {bb.BasicBlockID}
      ensures EntryBB == old(EntryBB)
      ensures forall b :: b in old(BasicBlocks).Values ==> b.Successors == old(b.Successors)
    {
      BasicBlocks := BasicBlocks - {bb.BasicBlockID};
    }

    /** Depth-first search from `bb`: marks `bb` visited, then searches from
        each successor, in ascending tag order, that is not marked yet.
        `g` is the successor graph of a set of blocks that holds `bb` and
        that no edge leaves; nothing outside it is ever reached. */
    method Traverse(bb: BasicBlock, visited: map<BasicBlock, bool>, ghost g: map<BasicBlock, set<BasicBlock>>)
      returns (visited': map<BasicBlock, bool>)
      requires bb in g && CurrentCfg(g)
      requires Marked(visited) <= g.Keys && bb !in Marked(visited)
      ensures Extends(visited, visited') && Marked(visited') <= g.Keys
      ensures bb in Marked(visited')
      ensures ClosedBeyond(g, visited, visited', {})
      ensures ReachedFrom(g, bb, visited, visited')
      decreases |g.Keys - Marked(visited)|
    {
      visited' := visited[bb := true];
      StartSearch(g, bb, visited);
      var successors := bb.Successors;
      assert successors.Values == g[bb];
      var tags := SortedKeys(successors.Keys);
      for i := 0 to |tags|
        invariant Searching(g, bb, visited, visited')
        invariant PrefixMarked(successors, tags, i, Marked(visited'))
      {
        var s := successors[tags[i]];
        ghost var current := visited';
        // `visited[s]` inserts `s` unvisited when it is not in the map yet.
        if !(s in visited' && visited'[s]) {
          ReadyToVisit(g, bb, visited, visited', s);
          visited' := Traverse(s, visited'[s := false], g);
          VisitedSuccessor(g, bb, visited, current, visited', s);
        }
        PrefixMarkedStep(successors, tags, i, Marked(current), Marked(visited'));
      }
      SortedKeysSpec(successors.Keys);
      FinishSearch(g, bb, visited, visited', successors, tags);
    }

    /** The structural validator: an entry block must be set, and a
        depth-first search from it must visit every registered block.
        `U` is any set of blocks that holds the entry block and that no
        successor edge leaves (the blocks the search may reach). */
    method IsValid(ghost U: set<BasicBlock>) returns (valid: bool)
      requires EntryBB != null ==> EntryBB in U && SuccessorClosed(U)
      ensures valid <==> EntryBB != null && Digraph.ReachesAll<BasicBlock>(Cfg(U), EntryBB, BasicBlocks.Values)
    {
      if EntryBB == null {
        return false;
      }
      var blocks := BasicBlocks;
      var keys := SortedKeys(blocks.Keys);
      var visited: map<BasicBlock, bool> := map[];
      var i := |keys|;
      while i > 0
        invariant 0 <= i <= |keys|
        invariant visited == UnvisitedFrom(blocks, keys, i)
      {
        i := i - 1;
        var b := blocks[keys[i]];
        // `map::insert` keeps an entry that is already there.
        if b !in visited {
          visited := visited[b := false];
        }
      }
      RegisteredUnvisited(blocks, keys);
      var entry: BasicBlock := EntryBB;
      ghost var g := Cfg(U);
      CfgOfClosedSet(U);
      ghost var registered := visited;
      visited := Traverse(entry, visited, g);
      valid := AllVisited(visited);
      SearchVerdict(g, entry, blocks.Values, registered, visited);
      assert g == Cfg(U) && blocks == BasicBlocks && entry == EntryBB;
    }

    /** What the printers read of this function now. */
    function View(): FunctionView
      reads this, BasicBlocks.Values
    {
      FunctionView(FunctionID, ViewOfBlocks(BasicBlocks))
    }

    /** The lines this function prints: its header, then either the
        empty-function marker or every block in ascending name order. */
    method Dump() returns (lines: seq<string>)
      ensures lines == FunctionText(View())
    {
      var header := ["def " + FunctionID + "():"];
      if Empty() {
        return header + ["  empty function", ""];
      }
      var view := ViewOfBlocks(BasicBlocks);
      var keys := SortedKeys(view.Keys);
      var body := DumpBlocks(view, keys);
      lines := header + (body + [""]);
    }

    /** The loop of `Function::dump` over the block table. */
    static method DumpBlocks(view: map<string, BlockView>, keys: seq<string>) returns (body: seq<string>)
      requires KeysIn(keys, view)
      ensures body == BlocksText(view, keys, |keys|)
    {
      body := [];
      for i := 0 to |keys|
        invariant body == BlocksText(view, keys, i)
      {
        body := body + BlockText(view[keys[i]]);
      }
    }

    /** The lines this function writes as a DOT graph: the blocks in
        descending name order, each one's edges in ascending tag order. */
    method PrintCFGAsDOT() returns (lines: seq<string>)
      ensures lines == DotText(View())
    {
      var blocks := BasicBlocks;
      ghost var view := ViewOfBlocks(blocks);
      var keys := SortedKeys(blocks.Keys);
      var body: seq<string> := [];
      var i := |keys|;
      while i > 0
        invariant 0 <= i <= |keys|
        invariant body == DotBody(EdgesFrom(view, keys, i))
      {
        i := i - 1;
        var key := keys[i];
        var succ := blocks[key].Successors;
        ghost var names := view[key].succ;
        assert names == SuccessorNames(succ);
        var tags := SortedKeys(succ.Keys);
        var blockBody: seq<string> := [];
        for j := 0 to |tags|
          invariant blockBody == DotBody(BlockEdges(key, names, tags, j))
        {
          BlockEdgesSnoc(key, names, tags, j);
          blockBody := blockBody + [EdgeText(Edge(key, tags[j], succ[tags[j]].BasicBlockID))];
        }
        DotBodyAppend(EdgesFrom(view, keys, i + 1), BlockEdges(key, names, tags, |tags|));
        body := body + blockBody;
      }
      lines := ["digraph " + FunctionID + " {"] + body + ["}"];
    }
  }

  // ---------------------------------------------------------------------
  // Module
  // ---------------------------------------------------------------------

  class Module {
    const ModuleID: string
    var Functions: map<string, Function>

    constructor (moduleID: string)
      ensures ModuleID == moduleID && Functions == map[]
    {
      ModuleID := moduleID;
      Functions := map[];
    }

    /** A new module named `filename`, without functions. */
    static method Create(filename: string) returns (m: Module)
      ensures fresh(m) && m.ModuleID == filename && m.Functions == map[]
    {
      m := new Module(filename);
    }

    method AddFunction(fnName: string, f: Function) returns (status: Status)
      modifies this
      ensures status == if fnName in old(Functions) then AssertionFailed("The function already exists") else Ok
      ensures Functions == if status.Ok? then old(Functions)[fnName := f] else old(Functions)
    {
      if fnName in Functions {
        return AssertionFailed("The function already exists");
      }
      Functions := Functions[fnName := f];
      status := Ok;
    }

    function NumberOfFns(): (n: nat)
      reads this
      ensures n == 0 <==> Functions == map[]
    {
      |Functions|
    }

    /** Erases the entry named like `f`, which must have no blocks left. */
    method RemoveFunction(f: Function) returns (status: Status)
      modifies this
      ensures status == if f.Empty() then Ok else AssertionFailed("Delete the basic blocks first")
      ensures Functions == if status.Ok? then old(Functions) - {f.FunctionID} else old(Functions)
    {
      if !f.Empty() {
        return AssertionFailed("Delete the basic blocks first");
      }
      Functions := Functions - {f.FunctionID};
      status := Ok;
    }

    /** The lines this module prints: its id and a blank line, then every
        function in ascending name order. */
    method Dump() returns (lines: seq<string>)
      ensures lines == ModuleText(ModuleID, ViewOfFunctions(Functions))
    {
      var view := ViewOfFunctions(Functions);
      var keys := SortedKeys(view.Keys);
      var body := [];
      for i := 0 to |keys|
        invariant body == FunctionsText(view, keys, i)
      {
        body := body + FunctionText(view[keys[i]]);
      }
      lines := ["ModuleID: " + ModuleID, ""] + body;
    }
  }
}
