/** The text the dump methods and the DOT exporter write, as functions of
    what they read: block, function and module names, and for each block
    its successor table with every target given by its name.  Every table
    is walked in ascending key order, as a `std::map` is iterated; the DOT
    exporter alone walks the block table backwards. */
module Printing {
  import opened KeyOrder

  /** What the printers read of a block: its name, and for each tag the
      name of the block the tag leads to. */
  datatype BlockView = BlockView(id: string, succ: map<string, string>)

  /** What the printers read of a function: its name and its block table. */
  datatype FunctionView = FunctionView(id: string, blocks: map<string, BlockView>)

  // ---------------------------------------------------------------------
  // dump
  // ---------------------------------------------------------------------

  /** One `<name>(tag: <tag>) ` entry of a block's successor summary. */
  function SuccessorEntry(name: string, tag: string): string
  {
    name + "(tag: " + tag + ") "
  }

  /** The successor summary for the first `n` tags of `tags`. */
  function SuccessorSummary(succ: map<string, string>, tags: seq<string>, n: nat): string
    requires n <= |tags| && KeysIn(tags, succ)
  {
    if n == 0 then ""
    else SuccessorSummary(succ, tags, n - 1) + SuccessorEntry(succ[tags[n - 1]], tags[n - 1])
  }

  /** The lines `BasicBlock::dump` writes: the successor summary when
      there are successors, then the label. */
  function BlockText(b: BlockView): seq<string>
  {
    var tags := SortedKeys(b.succ.Keys);
    (if |b.succ| > 0 then [" ; Successors: " + SuccessorSummary(b.succ, tags, |tags|)] else [])
    + [" " + b.id + ":"]
  }

  /** The dumps of the blocks registered under the first `n` keys of `keys`. */
  function BlocksText(blocks: map<string, BlockView>, keys: seq<string>, n: nat): seq<string>
    requires n <= |keys| && KeysIn(keys, blocks)
  {
    if n == 0 then []
    else BlocksText(blocks, keys, n - 1) + BlockText(blocks[keys[n - 1]])
  }

  /** The lines `Function::dump` writes. */
  function FunctionText(f: FunctionView): seq<string>
  {
    var keys := SortedKeys(f.blocks.Keys);
    ["def " + f.id + "():"]
    + if f.blocks == map[] then ["  empty function", ""]
      else BlocksText(f.blocks, keys, |keys|) + [""]
  }

  /** The dumps of the functions registered under the first `n` keys of `keys`. */
  function FunctionsText(fns: map<string, FunctionView>, keys: seq<string>, n: nat): seq<string>
    requires n <= |keys| && KeysIn(keys, fns)
  {
    if n == 0 then []
    else FunctionsText(fns, keys, n - 1) + FunctionText(fns[keys[n - 1]])
  }

  /** The lines `Module::dump` writes. */
  function ModuleText(id: string, fns: map<string, FunctionView>): seq<string>
  {
    var keys := SortedKeys(fns.Keys);
    ["ModuleID: " + id, ""] + FunctionsText(fns, keys, |keys|)
  }

  // ---------------------------------------------------------------------
  // printCFGAsDOT
  // ---------------------------------------------------------------------

  /** One CFG edge as the DOT exporter writes it: the key of the source
      block in the function's table, the tag, and the target's name. */
  datatype Edge = Edge(from: string, tag: string, to: string)

  /** The DOT line of one edge. */
  function EdgeText(e: Edge): string
  {
    "  " + e.from + " -> " + e.to + "[ label = \"" + e.tag + "\"];"
  }

  /** The DOT lines of `edges`, one per edge, in order. */
  function DotBody(edges: seq<Edge>): seq<string>
  {
    seq(|edges|, i requires 0 <= i < |edges| => EdgeText(edges[i]))
  }

  /** The edges of the block registered under `key`, for its first `n` tags. */
  function BlockEdges(key: string, succ: map<string, string>, tags: seq<string>, n: nat): seq<Edge>
    requires n <= |tags| && KeysIn(tags, succ)
  {
    seq(n, j requires 0 <= j < n => Edge(key, tags[j], succ[tags[j]]))
  }

  /** The edges of the blocks registered under `keys[i..]`, the LAST key
      first, each block's tags in ascending order. */
  function EdgesFrom(blocks: map<string, BlockView>, keys: seq<string>, i: nat): seq<Edge>
    requires i <= |keys| && KeysIn(keys, blocks)
    decreases |keys| - i
  {
    if i == |keys| then []
    else
      var succ := blocks[keys[i]].succ;
      var tags := SortedKeys(succ.Keys);
      EdgesFrom(blocks, keys, i + 1) + BlockEdges(keys[i], succ, tags, |tags|)
  }

  /** The edges in the order `Function::printCFGAsDOT` writes them. */
  function DotEdges(blocks: map<string, BlockView>): seq<Edge>
  {
    EdgesFrom(blocks, SortedKeys(blocks.Keys), 0)
  }

  /** The lines `Function::printCFGAsDOT` writes to its file. */
  function DotText(f: FunctionView): seq<string>
  {
    ["digraph " + f.id + " {"] + DotBody(DotEdges(f.blocks)) + ["}"]
  }

  lemma BlockEdgesSnoc(key: string, succ: map<string, string>, tags: seq<string>, n: nat)
    requires n < |tags| && KeysIn(tags, succ)
    ensures DotBody(BlockEdges(key, succ, tags, n + 1))
         == DotBody(BlockEdges(key, succ, tags, n)) + [EdgeText(Edge(key, tags[n], succ[tags[n]]))]
  {
  }

  lemma DotBodyAppend(a: seq<Edge>, b: seq<Edge>)
    ensures DotBody(a + b) == DotBody(a) + DotBody(b)
  {
  }

  // ---------------------------------------------------------------------
  // What the DOT exporter writes, edge by edge
  // ---------------------------------------------------------------------

  /** `e` is an edge of the block table: the block registered under
      `e.from` maps `e.tag` to a block named `e.to`. */
  ghost predicate IsEdge(blocks: map<string, BlockView>, e: Edge)
  {
    e.from in blocks && e.tag in blocks[e.from].succ && e.to == blocks[e.from].succ[e.tag]
  }

  /** `a` is written before `b`: its block comes later in name order, or
      it is the same block and its tag comes first. */
  predicate EdgeBefore(a: Edge, b: Edge)
  {
    Less(b.from, a.from) || (a.from == b.from && Less(a.tag, b.tag))
  }

  ghost predicate EdgesOrdered(edges: seq<Edge>)
  {
    forall i, j :: 0 <= i < j < |edges| ==> EdgeBefore(edges[i], edges[j])
  }

  lemma ConcatOrdered(a: seq<Edge>, b: seq<Edge>)
    requires EdgesOrdered(a) && EdgesOrdered(b)
    requires forall x, y :: x in a && y in b ==> EdgeBefore(x, y)
    ensures EdgesOrdered(a + b)
  {
    var c := a + b;
    forall i, j | 0 <= i < j < |c|
      ensures EdgeBefore(c[i], c[j])
    {
      if j < |a| {
        assert c[i] == a[i] && c[j] == a[j];
      } else if i >= |a| {
        assert c[i] == b[i - |a|] && c[j] == b[j - |a|];
      } else {
        assert c[i] in a && c[j] in b;
      }
    }
  }

  /** The edges of one block are exactly its successor table, in
      ascending tag order. */
  lemma BlockEdgesSpec(key: string, succ: map<string, string>, tags: seq<string>)
    requires tags == SortedKeys(succ.Keys)
    ensures forall e :: e in BlockEdges(key, succ, tags, |tags|)
                        <==> e.from == key && e.tag in succ && e.to == succ[e.tag]
    ensures EdgesOrdered(BlockEdges(key, succ, tags, |tags|))
  {
    SortedKeysSpec(succ.Keys);
    var es := BlockEdges(key, succ, tags, |tags|);
    forall e: Edge | e.from == key && e.tag in succ && e.to == succ[e.tag]
      ensures e in es
    {
      var j :| 0 <= j < |tags| && tags[j] == e.tag;
      assert es[j] == e;
    }
  }

  /** The edges written for the blocks under `keys[i..]` are exactly their
      successor tables, in the order `EdgeBefore`. */
  lemma {:induction false} EdgesFromSpec(blocks: map<string, BlockView>, keys: seq<string>, i: nat)
    requires i <= |keys| && KeysIn(keys, blocks) && StrictlyAscending(keys)
    ensures forall e :: e in EdgesFrom(blocks, keys, i) <==> e.from in keys[i..] && IsEdge(blocks, e)
    ensures EdgesOrdered(EdgesFrom(blocks, keys, i))
    decreases |keys| - i
  {
    if i < |keys| {
      EdgesFromSpec(blocks, keys, i + 1);
      var key := keys[i];
      var succ := blocks[key].succ;
      var tags := SortedKeys(succ.Keys);
      var later := EdgesFrom(blocks, keys, i + 1);
      var here := BlockEdges(key, succ, tags, |tags|);
      BlockEdgesSpec(key, succ, tags);
      assert keys[i..] == [key] + keys[i + 1..];
      forall x, y | x in later && y in here
        ensures EdgeBefore(x, y)
      {
        var k :| i + 1 <= k < |keys| && keys[k] == x.from;
      }
      ConcatOrdered(later, here);
    }
  }

  /** `printCFGAsDOT` writes one line for each edge of the CFG and no other
      edge line: blocks in descending name order, each block's tags in
      ascending order, so no (block, tag) pair is written twice. */
  lemma DotEdgesSpec(blocks: map<string, BlockView>)
    ensures forall e :: e in DotEdges(blocks) <==> IsEdge(blocks, e)
    ensures EdgesOrdered(DotEdges(blocks))
    ensures forall i, j :: 0 <= i < j < |DotEdges(blocks)| ==>
              DotEdges(blocks)[i].from != DotEdges(blocks)[j].from
              || DotEdges(blocks)[i].tag != DotEdges(blocks)[j].tag
  {
    var keys := SortedKeys(blocks.Keys);
    SortedKeysSpec(blocks.Keys);
    EdgesFromSpec(blocks, keys, 0);
    assert keys[0..] == keys;
    var d := DotEdges(blocks);
    forall i, j | 0 <= i < j < |d|
      ensures d[i].from != d[j].from || d[i].tag != d[j].tag
    {
      LessIrreflexive(d[i].from);
      LessIrreflexive(d[i].tag);
    }
  }

  // ---------------------------------------------------------------------
  // What the dumps list, line by line
  // ---------------------------------------------------------------------

  /** The lines of `lines` that `keep` selects, in order. */
  function Select(lines: seq<string>, keep: string -> bool): (r: seq<string>)
    ensures |r| <= |lines|
  {
    if lines == [] then []
    else Select(lines[..|lines| - 1], keep) + if keep(lines[|lines| - 1]) then [lines[|lines| - 1]] else []
  }

  lemma {:induction false} SelectAppend(a: seq<string>, b: seq<string>, keep: string -> bool)
    ensures Select(a + b, keep) == Select(a, keep) + Select(b, keep)
    decreases |b|
  {
    if b != [] {
      var b' := b[..|b| - 1];
      assert (a + b)[..|a + b| - 1] == a + b';
      var last := b[|b| - 1];
      assert (a + b)[|a + b| - 1] == last;
      var t := if keep(last) then [last] else [];
      assert Select(b, keep) == Select(b', keep) + t;
      assert Select(a + b, keep) == Select(a + b', keep) + t;
      SelectAppend(a, b', keep);
    } else {
      assert a + b == a;
    }
  }

  /** Selecting from one line. */
  lemma SelectOne(l: string, keep: string -> bool)
    ensures Select([l], keep) == if keep(l) then [l] else []
  {
    assert [l][..0] == [];
  }

  /** Nothing is selected from lines that `keep` rejects. */
  lemma {:induction false} SelectNone(lines: seq<string>, keep: string -> bool)
    requires forall l :: l in lines ==> !keep(l)
    ensures Select(lines, keep) == []
    decreases |lines|
  {
    if lines != [] {
      SelectNone(lines[..|lines| - 1], keep);
    }
  }

  /** A line ending with a colon: a block label or a function header. */
  predicate IsLabel(l: string)
  {
    |l| > 0 && l[|l| - 1] == ':'
  }

  /** A function header line. */
  predicate IsHeader(l: string)
  {
    |l| >= 4 && l[..4] == "def "
  }

  /** A line indented by a blank. */
  predicate IsIndented(l: string)
  {
    |l| > 0 && l[0] == ' '
  }

  /** A line that does not start with `d` is no header. */
  lemma NotHeader(l: string)
    requires |l| > 0 && l[0] != 'd'
    ensures !IsHeader(l)
  {
    if |l| >= 4 {
      assert l[..4][0] == l[0];
    }
  }

  lemma SummaryEndsWithBlank(succ: map<string, string>, tags: seq<string>, n: nat)
    requires 0 < n <= |tags| && KeysIn(tags, succ)
    ensures var s := SuccessorSummary(succ, tags, n); |s| > 0 && s[|s| - 1] == ' '
  {
    var e := SuccessorEntry(succ[tags[n - 1]], tags[n - 1]);
    assert e[|e| - 1] == ' ';
  }

  /** A block dump is one line, or two when the block has successors,
      and every line is indented. */
  lemma BlockTextIndented(b: BlockView)
    ensures |BlockText(b)| == if |b.succ| > 0 then 2 else 1
    ensures forall l :: l in BlockText(b) ==> IsIndented(l)
  {
  }

  /** Exactly one line of a block dump is a label: the block's own. */
  lemma BlockTextLabel(b: BlockView)
    ensures Select(BlockText(b), IsLabel) == [" " + b.id + ":"]
  {
    var tags := SortedKeys(b.succ.Keys);
    var labelLine := " " + b.id + ":";
    SelectOne(labelLine, IsLabel);
    if |b.succ| > 0 {
      var summary := " ; Successors: " + SuccessorSummary(b.succ, tags, |tags|);
      SummaryEndsWithBlank(b.succ, tags, |tags|);
      SelectOne(summary, IsLabel);
      SelectAppend([summary], [labelLine], IsLabel);
    }
  }

  /** The labels of the blocks under the first `n` keys of `keys`, in that order. */
  function LabelsOf(blocks: map<string, BlockView>, keys: seq<string>, n: nat): seq<string>
    requires n <= |keys| && KeysIn(keys, blocks)
  {
    seq(n, i requires 0 <= i < n => " " + blocks[keys[i]].id + ":")
  }

  lemma LabelsOfSnoc(blocks: map<string, BlockView>, keys: seq<string>, m: nat)
    requires m < |keys| && KeysIn(keys, blocks)
    ensures LabelsOf(blocks, keys, m + 1) == LabelsOf(blocks, keys, m) + [" " + blocks[keys[m]].id + ":"]
  {
  }

  /** The labels in the dump of the blocks under the first `n` keys are
      those blocks' labels, in the order of `keys`. */
  lemma {:induction false} BlocksTextLabels(blocks: map<string, BlockView>, keys: seq<string>, n: nat)
    requires n <= |keys| && KeysIn(keys, blocks)
    ensures Select(BlocksText(blocks, keys, n), IsLabel) == LabelsOf(blocks, keys, n)
  {
    if n > 0 {
      var m := n - 1;
      var prev := BlocksText(blocks, keys, m);
      var b := blocks[keys[m]];
      assert BlocksText(blocks, keys, n) == prev + BlockText(b);
      BlocksTextLabels(blocks, keys, m);
      BlockTextLabel(b);
      SelectAppend(prev, BlockText(b), IsLabel);
      LabelsOfSnoc(blocks, keys, m);
    } else {
      assert BlocksText(blocks, keys, n) == [];
    }
  }

  /** Every line of the dump of the blocks under the first `n` keys is indented. */
  lemma {:induction false} BlocksTextIndented(blocks: map<string, BlockView>, keys: seq<string>, n: nat)
    requires n <= |keys| && KeysIn(keys, blocks)
    ensures forall l :: l in BlocksText(blocks, keys, n) ==> IsIndented(l)
  {
    if n > 0 {
      BlocksTextIndented(blocks, keys, n - 1);
      BlockTextIndented(blocks[keys[n - 1]]);
    }
  }

  /** Selecting from a line `keep` takes, some lines, and a blank line. */
  lemma SelectFramed(first: string, middle: seq<string>, keep: string -> bool)
    requires keep(first) && !keep("")
    ensures Select([first] + (middle + [""]), keep) == [first] + Select(middle, keep)
  {
    SelectOne(first, keep);
    SelectOne("", keep);
    SelectAppend(middle, [""], keep);
    assert Select(middle + [""], keep) == Select(middle, keep);
    SelectAppend([first], middle + [""], keep);
  }

  /** The labels of a function dump: the header, then the label of every
      registered block in ascending name order.  An empty function has
      the header alone. */
  lemma FunctionTextLabels(f: FunctionView)
    ensures var keys := SortedKeys(f.blocks.Keys);
            Select(FunctionText(f), IsLabel) == ["def " + f.id + "():"] + LabelsOf(f.blocks, keys, |keys|)
  {
    var keys := SortedKeys(f.blocks.Keys);
    var header := "def " + f.id + "():";
    if f.blocks == map[] {
      var tail := ["  empty function", ""];
      assert FunctionText(f) == [header] + tail;
      assert LabelsOf(f.blocks, keys, |keys|) == [];
      SelectOne(header, IsLabel);
      SelectNone(tail, IsLabel);
      SelectAppend([header], tail, IsLabel);
    } else {
      var body := BlocksText(f.blocks, keys, |keys|);
      assert FunctionText(f) == [header] + (body + [""]);
      SelectFramed(header, body, IsLabel);
      BlocksTextLabels(f.blocks, keys, |keys|);
    }
  }

  /** The one header line of a function dump is its first line. */
  lemma FunctionTextHeaders(f: FunctionView)
    ensures Select(FunctionText(f), IsHeader) == ["def " + f.id + "():"]
  {
    var keys := SortedKeys(f.blocks.Keys);
    var header := "def " + f.id + "():";
    assert header[..4] == "def ";
    SelectOne(header, IsHeader);
    var tail := if f.blocks == map[] then ["  empty function", ""]
                else BlocksText(f.blocks, keys, |keys|) + [""];
    if f.blocks != map[] {
      BlocksTextIndented(f.blocks, keys, |keys|);
    }
    forall l | l in tail
      ensures !IsHeader(l)
    {
      if l != "" {
        NotHeader(l);
      }
    }
    SelectNone(tail, IsHeader);
    SelectAppend([header], tail, IsHeader);
  }

  /** The headers of the functions under the first `n` keys of `keys`, in that order. */
  function HeadersOf(fns: map<string, FunctionView>, keys: seq<string>, n: nat): seq<string>
    requires n <= |keys| && KeysIn(keys, fns)
  {
    seq(n, i requires 0 <= i < n => "def " + fns[keys[i]].id + "():")
  }

  lemma HeadersOfSnoc(fns: map<string, FunctionView>, keys: seq<string>, m: nat)
    requires m < |keys| && KeysIn(keys, fns)
    ensures HeadersOf(fns, keys, m + 1) == HeadersOf(fns, keys, m) + ["def " + fns[keys[m]].id + "():"]
  {
  }

  /** The headers in the dumps of the functions under the first `n` keys
      are those functions' headers, in the order of `keys`. */
  lemma {:induction false} FunctionsTextHeaders(fns: map<string, FunctionView>, keys: seq<string>, n: nat)
    requires n <= |keys| && KeysIn(keys, fns)
    ensures Select(FunctionsText(fns, keys, n), IsHeader) == HeadersOf(fns, keys, n)
  {
    if n > 0 {
      var m := n - 1;
      var prev := FunctionsText(fns, keys, m);
      var f := fns[keys[m]];
      assert FunctionsText(fns, keys, n) == prev + FunctionText(f);
      FunctionsTextHeaders(fns, keys, m);
      FunctionTextHeaders(f);
      SelectAppend(prev, FunctionText(f), IsHeader);
      HeadersOfSnoc(fns, keys, m);
    } else {
      assert FunctionsText(fns, keys, n) == [];
    }
  }

  /** A module dump holds one function header per registered function, in
      ascending name order, and no other header. */
  lemma ModuleTextHeaders(id: string, fns: map<string, FunctionView>)
    ensures var keys := SortedKeys(fns.Keys);
            Select(ModuleText(id, fns), IsHeader) == HeadersOf(fns, keys, |keys|)
  {
    var keys := SortedKeys(fns.Keys);
    var top := ["ModuleID: " + id, ""];
    forall l | l in top
      ensures !IsHeader(l)
    {
      if l != "" {
        NotHeader(l);
      }
    }
    SelectNone(top, IsHeader);
    FunctionsTextHeaders(fns, keys, |keys|);
    SelectAppend(top, FunctionsText(fns, keys, |keys|), IsHeader);
  }
}
