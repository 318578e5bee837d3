/** Building the interprocedural control flow graph of a function. */
module ICFGBuilder {
  import opened ControlFlow
  import opened Reachability

  // A call has two nodes, any other instruction one.
  datatype ICFGNode =
    | FunEntry(fun: FunId)
    | FunExit(fun: FunId)
    | IntraNode(at: Loc)
    | CallNode(at: Loc)
    | RetNode(at: Loc)

  datatype Edge =
    | IntraEdge(src: ICFGNode, dst: ICFGNode)
    | CallEdge(src: ICFGNode, dst: ICFGNode)
    | RetEdge(src: ICFGNode, dst: ICFGNode)

  // Where control flow enters and leaves the node or nodes of an instruction.
  function EntryOf(f: Function, i: Loc): ICFGNode
    requires f.Has(i)
  {
    if f.At(i).Call? then CallNode(i) else IntraNode(i)
  }

  function ExitOf(f: Function, i: Loc): ICFGNode
    requires f.Has(i)
  {
    if f.At(i).Call? then RetNode(i) else IntraNode(i)
  }

  // The edges that are added with the nodes of an instruction.
  function CreatedEdges(f: Function, i: Loc): set<Edge>
    requires f.Has(i)
  {
    match f.At(i)
    case Call(Direct(callee)) => {CallEdge(CallNode(i), FunEntry(callee)), RetEdge(FunExit(callee), RetNode(i))}
    case Call(_) => {IntraEdge(CallNode(i), RetNode(i))}
    case _ => {}
  }

  // The edges that are added when an instruction is taken from the worklist.
  function LeavingEdges(f: Function, i: Loc): set<Edge>
    requires f.WellFormed() && f.Has(i)
  {
    (if f.At(i).Return? then {IntraEdge(IntraNode(i), FunExit(f.id))} else {}) +
    set m | m in NextInsts(f, i) :: IntraEdge(ExitOf(f, i), EntryOf(f, m))
  }

  // ----- the graph of some instructions -----

  ghost predicate AllThere(f: Function, s: set<Loc>) {
    forall i {:trigger i in s} | i in s :: f.Has(i)
  }

  ghost function NodesOf(f: Function, s: set<Loc>): set<ICFGNode>
    requires AllThere(f, s)
  {
    {FunEntry(f.id), FunExit(f.id)} + (set i | i in s :: EntryOf(f, i)) + set i | i in s :: ExitOf(f, i)
  }

  ghost function EdgesOf(f: Function, visited: set<Loc>, done: set<Loc>): set<Edge>
    requires f.WellFormed() && AllThere(f, visited) && AllThere(f, done)
  {
    {IntraEdge(FunEntry(f.id), EntryOf(f, Skip(f, (0, 0))))}
    + (set i, e | i in visited && e in CreatedEdges(f, i) :: e)
    + set i, e | i in done && e in LeavingEdges(f, i) :: e
  }

  // ----- which instructions are visited -----

  function AllLocs(f: Function): set<Loc> {
    set b: nat, k: nat | b < |f.blocks| && k < |f.blocks[b].insts| :: (b, k)
  }

  // Every instruction that is no intrinsic, and the front of every flagged block.
  ghost predicate IsVisited(f: Function, i: Loc) {
    f.Has(i) && (!f.At(i).Intrinsic? || (i.1 == 0 && f.flagged(i.0)))
  }

  function Successor(f: Function): Successors {
    (b: Node) => if b < |f.blocks| then f.blocks[b].succs else []
  }

  // The dominance information flags at least the blocks that cannot be reached.
  ghost predicate FlagsUnreachable(f: Function) {
    forall b: nat | b < |f.blocks| :: Reaches(Successor(f), 0, b) || f.flagged(b)
  }

  // s holds the start of the function and of the flagged blocks, and all next instructions.
  ghost predicate IsClosed(f: Function, s: set<Loc>)
    requires f.WellFormed()
  {
    && Skip(f, (0, 0)) in s
    && (forall b: nat {:trigger f.flagged(b)} | b < |f.blocks| && f.flagged(b) :: (b, 0) in s)
    && (forall i, m {:trigger m in NextInsts(f, i)} | i in s && f.Has(i) && m in NextInsts(f, i) :: m in s)
  }

  // Within a block everything from a visited front on is visited.
  lemma {:induction false} BlockIsVisited(f: Function, s: set<Loc>, b: nat, k: nat)
    requires f.WellFormed() && IsClosed(f, s) && f.Has((b, k)) && Skip(f, (b, 0)) in s
    ensures Skip(f, (b, k)) in s
    decreases k
  {
    if k > 0 {
      BlockIsVisited(f, s, b, k - 1);
      assert f.Next((b, k - 1))[0] == (b, k);
      SkipNext(f, (b, k - 1), (b, k));
    }
  }

  lemma FrontIsVisited(f: Function, s: set<Loc>, b: nat)
    requires f.WellFormed() && IsClosed(f, s) && FlagsUnreachable(f) && b < |f.blocks|
    ensures Skip(f, (b, 0)) in s
  {
    if f.flagged(b) {
      if f.At((b, 0)).Intrinsic? {
        assert f.Next((b, 0))[0] == (b, 1);
        assert NextInsts(f, (b, 0))[0] == Skip(f, (b, 1)) && Skip(f, (b, 1)) in NextInsts(f, (b, 0));
      }
    } else {
      var fronts := set c: nat | c < |f.blocks| && Skip(f, (c, 0)) in s;
      forall c: Node, d: Node {:trigger c in fronts, d in Successor(f)(c)} | c in fronts && d in Successor(f)(c)
        ensures d in fronts
      {
        var last := (c, |f.blocks[c].insts| - 1);
        BlockIsVisited(f, s, c, last.1);
        var k :| 0 <= k < |f.blocks[c].succs| && f.blocks[c].succs[k] == d;
        assert f.Next(last)[k] == (d, 0);
        SkipNext(f, last, (d, 0));
      }
      ClosedContains(Successor(f), fronts, 0, b);
    }
  }

  // A closed set of instructions holds every instruction that is no intrinsic.
  lemma EverythingIsVisited(f: Function, s: set<Loc>)
    requires f.WellFormed() && IsClosed(f, s) && FlagsUnreachable(f)
    ensures forall i | IsVisited(f, i) :: i in s
  {
    forall i | IsVisited(f, i) ensures i in s {
      if !f.At(i).Intrinsic? {
        FrontIsVisited(f, s, i.0);
        BlockIsVisited(f, s, i.0, i.1);
      }
    }
  }

  // ----- the builder -----

  // What is built after visiting some instructions and finishing some of them.
  datatype Built = Built(visited: set<Loc>, nodes: set<ICFGNode>, edges: set<Edge>)

  ghost predicate IsBuilt(f: Function, built: Built, left: set<Edge>) {
    && f.WellFormed() && AllThere(f, built.visited)
    && built.nodes == NodesOf(f, built.visited)
    && built.edges == EdgesOf(f, built.visited, {}) + left
  }

  // Visiting an instruction adds its nodes and the edges created with them.
  ghost predicate Adds(f: Function, before: Built, after: Built, i: Loc) {
    && f.Has(i) && after.visited == before.visited + {i}
    && after.nodes == before.nodes + {EntryOf(f, i), ExitOf(f, i)}
    && after.edges == before.edges + CreatedEdges(f, i)
  }

  lemma AddKeepsBuilt(f: Function, before: Built, after: Built, left: set<Edge>, i: Loc)
    requires IsBuilt(f, before, left) && Adds(f, before, after, i)
    ensures IsBuilt(f, after, left)
  {
    NodesOfMore(f, before.visited, i);
    EdgesOfMore(f, before.visited, i);
  }

  lemma NodesOfMore(f: Function, visited: set<Loc>, i: Loc)
    requires f.WellFormed() && AllThere(f, visited) && f.Has(i)
    ensures AllThere(f, visited + {i})
    ensures NodesOf(f, visited + {i}) == NodesOf(f, visited) + {EntryOf(f, i), ExitOf(f, i)}
  {
  }

  lemma EdgesOfMore(f: Function, visited: set<Loc>, i: Loc)
    requires f.WellFormed() && AllThere(f, visited) && f.Has(i)
    ensures AllThere(f, visited + {i})
    ensures EdgesOf(f, visited + {i}, {}) == EdgesOf(f, visited, {}) + CreatedEdges(f, i)
  {
  }

  ghost function Elements(locs: seq<Loc>): set<Loc> {
    set m | m in locs
  }

  ghost function LeavingAll(f: Function, done: set<Loc>): set<Edge>
    requires f.WellFormed() && AllThere(f, done)
  {
    set i, e | i in done && e in LeavingEdges(f, i) :: e
  }

  // What one turn of the worklist loop adds to it: the instructions visited since.
  ghost predicate Queues(before: set<Loc>, after: set<Loc>, worklist: seq<Loc>, pending: seq<Loc>) {
    && before <= after && (forall i :: i in pending <==> i in worklist || i in after - before)
    && (after == before ==> pending == worklist)
  }

  lemma QueuesNext(start: set<Loc>, before: set<Loc>, worklist: seq<Loc>, queue: seq<Loc>, succ: Loc, pending: seq<Loc>)
    requires Queues(start, before, worklist, queue)
    requires pending == queue + if succ in before then [] else [succ]
    ensures Queues(start, before + {succ}, worklist, pending)
  {
    if succ in before { assert before + {succ} == before && pending == queue; }
  }

  ghost function LinksOf(f: Function, srcNode: ICFGNode, succs: seq<Loc>): set<Edge>
    requires forall m | m in succs :: f.Has(m)
  {
    set m | m in succs :: IntraEdge(srcNode, EntryOf(f, m))
  }

  lemma LinksNext(f: Function, srcNode: ICFGNode, succs: seq<Loc>, k: nat, left: set<Edge>, start: set<Loc>)
    requires k < |succs| && forall m | m in succs :: f.Has(m)
    ensures left + LinksOf(f, srcNode, succs[..k + 1]) ==
            left + LinksOf(f, srcNode, succs[..k]) + {IntraEdge(srcNode, EntryOf(f, succs[k]))}
    ensures start + Elements(succs[..k + 1]) == start + Elements(succs[..k]) + {succs[k]}
  {
    assert succs[..k + 1] == succs[..k] + [succs[k]];
  }

  lemma LeavingEdgesAre(f: Function, i: Loc, left: set<Edge>, base: set<Edge>, srcNode: ICFGNode)
    requires f.WellFormed() && f.Has(i) && srcNode == ExitOf(f, i)
    requires base == left + if f.At(i).Return? then {IntraEdge(IntraNode(i), FunExit(f.id))} else {}
    ensures base + LinksOf(f, srcNode, NextInsts(f, i)) == left + LeavingEdges(f, i)
  {
  }

  // The state of the worklist loop: finished instructions have their edges, and their next
  // instructions are visited.
  ghost predicate IsInProgress(f: Function, built: Built, done: set<Loc>, worklist: seq<Loc>) {
    && f.WellFormed() && AllThere(f, done) && IsBuilt(f, built, LeavingAll(f, done))
    && (forall i {:trigger i in built.visited} :: i in built.visited <==> i in done || i in worklist)
    && FollowsNext(f, built.visited, done)
  }

  lemma TurnKeepsProgress(f: Function, before: Built, after: Built, done: set<Loc>, worklist: seq<Loc>,
                          pending: seq<Loc>)
    requires worklist != [] && IsInProgress(f, before, done, worklist) && f.Has(worklist[0])
    requires IsBuilt(f, after, LeavingAll(f, done) + LeavingEdges(f, worklist[0]))
    requires after.visited == before.visited + Elements(NextInsts(f, worklist[0]))
    requires Queues(before.visited, after.visited, worklist[1..], pending)
    ensures IsInProgress(f, after, done + {worklist[0]}, pending)
  {
    TurnKeepsQueue(before.visited, after.visited, done, worklist, pending);
    TurnFollowsNext(f, before.visited, after.visited, done, worklist[0]);
    LeavingAllNext(f, done, worklist[0]);
  }

  // The next instructions of finished instructions are visited.
  ghost predicate FollowsNext(f: Function, visited: set<Loc>, done: set<Loc>)
    requires f.WellFormed() && AllThere(f, done)
  {
    forall i, m {:trigger m in NextInsts(f, i)} | i in done && m in NextInsts(f, i) :: m in visited
  }

  lemma TurnFollowsNext(f: Function, before: set<Loc>, after: set<Loc>, done: set<Loc>, i: Loc)
    requires f.WellFormed() && AllThere(f, done) && f.Has(i) && FollowsNext(f, before, done)
    requires after == before + Elements(NextInsts(f, i))
    ensures AllThere(f, done + {i}) && FollowsNext(f, after, done + {i})
  {
    forall j, m {:trigger m in NextInsts(f, j)} | j in done + {i} && m in NextInsts(f, j) ensures m in after {
      if j == i { assert m in Elements(NextInsts(f, i)); }
    }
  }

  lemma LeavingAllNext(f: Function, done: set<Loc>, i: Loc)
    requires f.WellFormed() && AllThere(f, done) && f.Has(i)
    ensures LeavingAll(f, done + {i}) == LeavingAll(f, done) + LeavingEdges(f, i)
  {
  }

  lemma TurnKeepsQueue(before: set<Loc>, after: set<Loc>, done: set<Loc>, worklist: seq<Loc>, pending: seq<Loc>)
    requires worklist != [] && Queues(before, after, worklist[1..], pending)
    requires forall i {:trigger i in before} :: i in before <==> i in done || i in worklist
    ensures forall i {:trigger i in after} :: i in after <==> i in done + {worklist[0]} || i in pending
  {
    assert worklist[0] in worklist && worklist[0] in before;
    assert forall x | x in worklist :: x == worklist[0] || x in worklist[1..];
    assert forall x | x in worklist[1..] :: x in worklist && x in before;
  }

  // Either something new was visited, or the worklist got shorter.
  lemma TurnTerminates(f: Function, before: Built, after: Built, left: set<Edge>, worklist: seq<Loc>, pending: seq<Loc>)
    requires worklist != [] && IsBuilt(f, after, left) && Queues(before.visited, after.visited, worklist[1..], pending)
    ensures |AllLocs(f) - after.visited| < |AllLocs(f) - before.visited| ||
            (after.visited == before.visited && |pending| < |worklist|)
  {
    if after.visited != before.visited {
      var x :| x in after.visited && x !in before.visited;
      assert x in AllLocs(f) - before.visited;
      SubsetIsSmaller(AllLocs(f) - after.visited, AllLocs(f) - before.visited, x);
    }
  }

  lemma {:induction false} SubsetIsSmaller<T>(a: set<T>, b: set<T>, x: T)
    requires a <= b && x in b - a
    ensures |a| < |b|
  {
    if y :| y in a {
      SubsetIsSmaller(a - {y}, b - {y}, x);
    }
  }

  // The fronts of the flagged blocks below b are visited, and nothing else is new.
  ghost predicate HasFlagged(f: Function, start: set<Loc>, seen: set<Loc>, b: nat) {
    && (forall c: nat {:trigger f.flagged(c)} | c < b && f.flagged(c) :: (c, 0) in seen)
    && (forall i {:trigger i in seen} | i in seen :: i in start || (i.1 == 0 && f.flagged(i.0)))
  }

  lemma HasFlaggedNext(f: Function, start: set<Loc>, seen: set<Loc>, b: nat)
    requires HasFlagged(f, start, seen, b)
    ensures HasFlagged(f, start, if f.flagged(b) then seen + {(b, 0)} else seen, b + 1)
  {
  }

  class ICFGBuilder {
    var built: Built

    constructor ()
      ensures built == Built({}, {}, {})
    {
      built := Built({}, {}, {});
    }

    // The instruction must not have nodes yet.
    method AddBlockICFGNode(f: Function, i: Loc) returns (node: ICFGNode)
      requires f.Has(i) && EntryOf(f, i) !in built.nodes && ExitOf(f, i) !in built.nodes
      modifies this
      ensures Adds(f, old(built), built, i) && node == EntryOf(f, i)
    {
      if f.At(i).Call? {
        node := AddInterBlockICFGNode(f, i);
      } else {
        node := IntraNode(i);
        built := Built(built.visited + {i}, built.nodes + {node}, built.edges);
      }
    }

    method AddInterBlockICFGNode(f: Function, i: Loc) returns (node: ICFGNode)
      requires f.Has(i) && f.At(i).Call? && CallNode(i) !in built.nodes && RetNode(i) !in built.nodes
      modifies this
      ensures Adds(f, old(built), built, i) && node == CallNode(i)
    {
      node := CallNode(i);
      var ret := RetNode(i);
      var edges := built.edges;
      match f.At(i).target
      case Direct(callee) =>
        edges := edges + {CallEdge(node, FunEntry(callee))};
        edges := edges + {RetEdge(FunExit(callee), ret)};
        built := Built(built.visited + {i}, built.nodes + {node, ret}, edges);
      case External =>
        built := Built(built.visited + {i}, built.nodes + {node, ret}, edges + {IntraEdge(node, ret)});
      case Indirect =>
        built := Built(built.visited + {i}, built.nodes + {node, ret}, edges + {IntraEdge(node, ret)});
    }

    // An unvisited instruction has no nodes.
    lemma UnvisitedHasNoNodes(f: Function, left: set<Edge>, i: Loc)
      requires IsBuilt(f, built, left) && f.Has(i) && i !in built.visited
      ensures EntryOf(f, i) !in built.nodes && ExitOf(f, i) !in built.nodes
    {
    }

    // Visits succ if it is new, and returns its node.
    method VisitInst(f: Function, worklist: seq<Loc>, succ: Loc, ghost left: set<Edge>)
      returns (dst: ICFGNode, pending: seq<Loc>)
      requires IsBuilt(f, built, left) && f.Has(succ)
      modifies this
      ensures IsBuilt(f, built, left) && built.visited == old(built.visited) + {succ}
      ensures dst == EntryOf(f, succ)
      ensures pending == worklist + if succ in old(built.visited) then [] else [succ]
    {
      if succ in built.visited {
        dst, pending := EntryOf(f, succ), worklist;
        assert built.visited == built.visited + {succ};
      } else {
        UnvisitedHasNoNodes(f, left, succ);
        dst := AddBlockICFGNode(f, succ);
        AddKeepsBuilt(f, old(built), built, left, succ);
        pending := worklist + [succ];
      }
    }

    // An edge that is already there is not added again.
    method AddIntraEdge(src: ICFGNode, dst: ICFGNode)
      modifies this
      ensures built == old(built).(edges := old(built).edges + {IntraEdge(src, dst)})
    {
      if IntraEdge(src, dst) !in built.edges {
        built := built.(edges := built.edges + {IntraEdge(src, dst)});
      }
    }

    method ProcessFunEntry(f: Function) returns (worklist: seq<Loc>)
      requires f.WellFormed() && built == Built({}, {FunEntry(f.id), FunExit(f.id)}, {})
      modifies this
      ensures IsInProgress(f, built, {}, worklist) && built.visited == {Skip(f, (0, 0))}
    {
      var entry := (0, 0);
      var insts := [entry];
      if f.At(entry).Intrinsic? {
        insts := GetNextInsts(f, entry, []);
        assert f.Next(entry) == [(0, 1)];
      }
      assert insts == [Skip(f, entry)];
      var node := AddBlockICFGNode(f, insts[0]);
      worklist := [insts[0]];
      AddIntraEdge(FunEntry(f.id), node);
    }

    method ProcessUnreachableFromEntry(f: Function, worklist: seq<Loc>) returns (pending: seq<Loc>)
      requires IsInProgress(f, built, {}, worklist)
      modifies this
      ensures IsInProgress(f, built, {}, pending) && old(built).visited <= built.visited
      ensures forall b: nat {:trigger f.flagged(b)} | b < |f.blocks| && f.flagged(b) :: (b, 0) in built.visited
      ensures forall i | i in built.visited :: i in old(built).visited || (i.1 == 0 && f.flagged(i.0))
    {
      pending := worklist;
      ghost var start, seen := built.visited, built.visited;
      for b := 0 to |f.blocks|
        invariant IsInProgress(f, built, {}, pending) && start <= seen == built.visited
        invariant HasFlagged(f, start, seen, b)
      {
        HasFlaggedNext(f, start, seen, b);
        pending := VisitFlagged(f, b, pending);
        seen := if f.flagged(b) then seen + {(b, 0)} else seen;
      }
    }

    // Visits the front of a flagged block that is not visited yet.
    method VisitFlagged(f: Function, b: nat, worklist: seq<Loc>) returns (pending: seq<Loc>)
      requires IsInProgress(f, built, {}, worklist) && b < |f.blocks|
      modifies this
      ensures IsInProgress(f, built, {}, pending)
      ensures built.visited == if f.flagged(b) then old(built).visited + {(b, 0)} else old(built).visited
    {
      pending := worklist;
      if f.flagged(b) && (b, 0) !in built.visited {
        assert LeavingAll(f, {}) == {};
        ghost var node;
        node, pending := VisitInst(f, worklist, (b, 0), {});
      }
    }

    // Visits a next instruction and links it.
    method LinkNext(f: Function, srcNode: ICFGNode, succ: Loc, worklist: seq<Loc>, ghost left: set<Edge>)
      returns (pending: seq<Loc>)
      requires IsBuilt(f, built, left) && f.Has(succ)
      modifies this
      ensures IsBuilt(f, built, left + {IntraEdge(srcNode, EntryOf(f, succ))})
      ensures built.visited == old(built).visited + {succ}
      ensures pending == worklist + if succ in old(built).visited then [] else [succ]
    {
      var dstNode;
      dstNode, pending := VisitInst(f, worklist, succ, left);
      ghost var before := built.edges;
      AddIntraEdge(srcNode, dstNode);
      assert before + {IntraEdge(srcNode, dstNode)} ==
             EdgesOf(f, built.visited, {}) + (left + {IntraEdge(srcNode, dstNode)});
    }

    method LinkAll(f: Function, srcNode: ICFGNode, succs: seq<Loc>, worklist: seq<Loc>, ghost left: set<Edge>)
      returns (pending: seq<Loc>)
      requires IsBuilt(f, built, left) && forall m | m in succs :: f.Has(m)
      modifies this
      ensures IsBuilt(f, built, left + LinksOf(f, srcNode, succs))
      ensures built.visited == old(built).visited + Elements(succs)
      ensures Queues(old(built).visited, built.visited, worklist, pending)
    {
      pending := worklist;
      ghost var start, all, seen := built.visited, left, built.visited;
      for k := 0 to |succs|
        invariant all == left + LinksOf(f, srcNode, succs[..k]) && IsBuilt(f, built, all)
        invariant built.visited == seen == start + Elements(succs[..k])
        invariant Queues(start, seen, worklist, pending)
      {
        LinksNext(f, srcNode, succs, k, left, start);
        ghost var queue := pending;
        pending := LinkNext(f, srcNode, succs[k], pending, all);
        QueuesNext(start, seen, worklist, queue, succs[k], pending);
        all, seen := all + {IntraEdge(srcNode, EntryOf(f, succs[k]))}, seen + {succs[k]};
      }
      assert succs[..|succs|] == succs;
    }

    // The edges that leave instruction i, and the instructions they lead to.
    method ProcessInst(f: Function, i: Loc, worklist: seq<Loc>, ghost left: set<Edge>) returns (pending: seq<Loc>)
      requires IsBuilt(f, built, left) && i in built.visited
      modifies this
      ensures IsBuilt(f, built, left + LeavingEdges(f, i))
      ensures built.visited == old(built).visited + Elements(NextInsts(f, i))
      ensures Queues(old(built).visited, built.visited, worklist, pending)
    {
      var srcNode := EntryOf(f, i);
      ghost var base := left;
      if f.At(i).Return? {
        AddIntraEdge(srcNode, FunExit(f.id));
        base := left + {IntraEdge(srcNode, FunExit(f.id))};
        assert built.edges == EdgesOf(f, built.visited, {}) + base;
      }
      var nextInsts := GetNextInsts(f, i, []);
      assert nextInsts == NextInsts(f, i);
      if f.At(i).Call? { srcNode := RetNode(i); }
      LeavingEdgesAre(f, i, left, base, srcNode);
      pending := LinkAll(f, srcNode, nextInsts, worklist, base);
    }

    method ProcessFunBody(f: Function, pending: seq<Loc>) returns (ghost done: set<Loc>)
      requires IsInProgress(f, built, {}, pending)
      modifies this
      ensures IsInProgress(f, built, done, []) && old(built).visited <= built.visited
      ensures forall i | i in built.visited :: i in old(built).visited || !f.At(i).Intrinsic?
    {
      var worklist := pending;
      done := {};
      while worklist != []
        invariant IsInProgress(f, built, done, worklist) && old(built).visited <= built.visited
        invariant forall i | i in built.visited :: i in old(built).visited || !f.At(i).Intrinsic?
        decreases |AllLocs(f) - built.visited|, |worklist|
      {
        ghost var before, queue := built, worklist;
        var inst := worklist[0];
        assert inst in worklist && inst in built.visited;
        worklist := ProcessInst(f, inst, worklist[1..], LeavingAll(f, done));
        TurnKeepsProgress(f, before, built, done, queue, worklist);
        TurnTerminates(f, before, built, LeavingAll(f, done) + LeavingEdges(f, inst), queue, worklist);
        done := done + {inst};
      }
    }

    // The edges of return instructions are there already.
    method ProcessFunExit(f: Function)
      requires f.WellFormed()
      requires forall i | f.Has(i) && f.At(i).Return? :: IntraEdge(IntraNode(i), FunExit(f.id)) in built.edges
      modifies this
      ensures built == old(built)
    {
      for b := 0 to |f.blocks|
        invariant built == old(built)
      {
        for k := 0 to |f.blocks[b].insts|
          invariant built == old(built)
        {
          if f.At((b, k)).Return? {
            AddIntraEdge(IntraNode((b, k)), FunExit(f.id));
          }
        }
      }
    }

    method BuildFunction(f: Function)
      requires f.WellFormed() && FlagsUnreachable(f)
      modifies this
      ensures IsICFG(f, built)
    {
      built := Built({}, {FunEntry(f.id), FunExit(f.id)}, {});
      var worklist := ProcessFunEntry(f);
      ghost var entered := built.visited;
      worklist := ProcessUnreachableFromEntry(f, worklist);
      ghost var begun := built.visited;
      ghost var done := ProcessFunBody(f, worklist);
      assert built.visited == done;
      EverythingIsVisited(f, done);
      FinishedIsICFG(f, built);
      ProcessFunExit(f);
    }
  }

  // The finished graph: the nodes and edges of all visited instructions.
  ghost predicate IsICFG(f: Function, built: Built) {
    && f.WellFormed() && (forall i {:trigger i in built.visited} :: i in built.visited <==> IsVisited(f, i))
    && AllThere(f, built.visited)
    && built.nodes == NodesOf(f, built.visited) && built.edges == EdgesOf(f, built.visited, built.visited)
  }

  lemma FinishedIsICFG(f: Function, built: Built)
    requires f.WellFormed() && IsInProgress(f, built, built.visited, [])
    requires forall i {:trigger i in built.visited} :: i in built.visited <==> IsVisited(f, i)
    ensures IsICFG(f, built)
    ensures forall i | f.Has(i) && f.At(i).Return? :: IntraEdge(IntraNode(i), FunExit(f.id)) in built.edges
  {
    forall i | f.Has(i) && f.At(i).Return? ensures IntraEdge(IntraNode(i), FunExit(f.id)) in built.edges {
      assert i in built.visited && IntraEdge(IntraNode(i), FunExit(f.id)) in LeavingEdges(f, i);
    }
  }

  // ----- what the graph means -----

  lemma NodeIsVisited(f: Function, built: Built, i: Loc)
    requires IsICFG(f, built)
    ensures IntraNode(i) in built.nodes <==> i in built.visited && !f.At(i).Call?
    ensures CallNode(i) in built.nodes <==> i in built.visited && f.At(i).Call?
    ensures RetNode(i) in built.nodes <==> i in built.visited && f.At(i).Call?
  {
    NodeInSet(f, built.visited, i);
  }

  lemma NodeInSet(f: Function, s: set<Loc>, i: Loc)
    requires AllThere(f, s)
    ensures IntraNode(i) in NodesOf(f, s) <==> i in s && !f.At(i).Call?
    ensures CallNode(i) in NodesOf(f, s) <==> i in s && f.At(i).Call?
    ensures RetNode(i) in NodesOf(f, s) <==> i in s && f.At(i).Call?
  {
    if i in s {
      assert EntryOf(f, i) in NodesOf(f, s) && ExitOf(f, i) in NodesOf(f, s);
    }
  }

  // Instructions have their node or pair of nodes, and intrinsics none unless one begins an
  // unreachable block.
  lemma NodesAreInstructions(f: Function, built: Built)
    requires IsICFG(f, built)
    ensures forall i | f.Has(i) && !f.At(i).Intrinsic? ::
              && (IntraNode(i) in built.nodes <==> !f.At(i).Call?)
              && (CallNode(i) in built.nodes <==> f.At(i).Call?) && (RetNode(i) in built.nodes <==> f.At(i).Call?)
    ensures forall i :: IntraNode(i) in built.nodes || CallNode(i) in built.nodes || RetNode(i) in built.nodes ==>
              f.Has(i)
    ensures (forall i | f.Has(i) && f.At(i).Intrinsic? :: IntraNode(i) !in built.nodes) <==>
            (forall b: nat | b < |f.blocks| && f.flagged(b) :: !f.At((b, 0)).Intrinsic?)
  {
    forall i ensures
      && (IntraNode(i) in built.nodes <==> IsVisited(f, i) && !f.At(i).Call?)
      && (CallNode(i) in built.nodes <==> IsVisited(f, i) && f.At(i).Call?)
      && (RetNode(i) in built.nodes <==> IsVisited(f, i) && f.At(i).Call?)
    {
      NodeIsVisited(f, built, i);
      assert i in built.visited <==> IsVisited(f, i);
    }
    if b: nat :| b < |f.blocks| && f.flagged(b) && f.At((b, 0)).Intrinsic? {
      assert IsVisited(f, (b, 0)) && IntraNode((b, 0)) in built.nodes;
    }
  }

  ghost predicate IsCreated(f: Function, s: set<Loc>, e: Edge) {
    exists i {:trigger i in s} :: i in s && f.Has(i) && e in CreatedEdges(f, i)
  }

  ghost predicate IsLeaving(f: Function, s: set<Loc>, e: Edge)
    requires f.WellFormed()
  {
    exists i {:trigger i in s} :: i in s && f.Has(i) && e in LeavingEdges(f, i)
  }

  // Where an edge comes from.
  lemma EdgeOrigin(f: Function, built: Built, e: Edge)
    requires IsICFG(f, built)
    ensures e in built.edges <==>
            || e == IntraEdge(FunEntry(f.id), EntryOf(f, Skip(f, (0, 0))))
            || IsCreated(f, built.visited, e) || IsLeaving(f, built.visited, e)
  {
  }

  // There is an edge from an instruction to another exactly when that is a next instruction.
  lemma EdgesAreNext(f: Function, built: Built, n: Loc, m: Loc)
    requires IsICFG(f, built) && n in built.visited && m in built.visited
    ensures IntraEdge(ExitOf(f, n), EntryOf(f, m)) in built.edges <==> m in NextInsts(f, n)
  {
    var e := IntraEdge(ExitOf(f, n), EntryOf(f, m));
    EdgeOrigin(f, built, e);
    LeavingIsNext(f, n, m);
    forall k | k in built.visited && f.Has(k) ensures e !in CreatedEdges(f, k) && (e in LeavingEdges(f, k) ==> k == n) {
      EdgeShapes(f, k, e);
    }
    assert !IsCreated(f, built.visited, e);
    assert IsLeaving(f, built.visited, e) <==> e in LeavingEdges(f, n);
  }

  lemma LeavingIsNext(f: Function, n: Loc, m: Loc)
    requires f.WellFormed() && f.Has(n) && f.Has(m)
    ensures IntraEdge(ExitOf(f, n), EntryOf(f, m)) in LeavingEdges(f, n) <==> m in NextInsts(f, n)
  {
  }

  lemma EdgeShapes(f: Function, i: Loc, e: Edge)
    requires f.WellFormed() && f.Has(i)
    ensures e in CreatedEdges(f, i) ==> if e.RetEdge? then e.dst == RetNode(i) else e.src == CallNode(i)
    ensures e in LeavingEdges(f, i) ==> e.IntraEdge? && e.src == ExitOf(f, i)
  {
  }

  // The edges at the call node of i, and return edges into its return node, come with i.
  lemma CallEdgeOrigin(f: Function, built: Built, i: Loc, e: Edge)
    requires IsICFG(f, built) && f.Has(i) && f.At(i).Call?
    requires if e.RetEdge? then e.dst == RetNode(i) else e.src == CallNode(i)
    ensures e in built.edges <==> e in CreatedEdges(f, i)
  {
    EdgeOrigin(f, built, e);
    assert i in built.visited;
    forall k | k in built.visited && f.Has(k) ensures e !in LeavingEdges(f, k) && (e in CreatedEdges(f, k) ==> k == i) {
      EdgeShapes(f, k, e);
    }
    assert !IsLeaving(f, built.visited, e);
    assert IsCreated(f, built.visited, e) <==> e in CreatedEdges(f, i);
  }

  // A direct call is linked to the entry and from the exit of its callee, any other call
  // straight to its return.
  lemma CallsAreLinked(f: Function, built: Built, i: Loc, callee: FunId)
    requires IsICFG(f, built) && f.Has(i) && f.At(i).Call?
    ensures CallEdge(CallNode(i), FunEntry(callee)) in built.edges <==> f.At(i).target == Direct(callee)
    ensures RetEdge(FunExit(callee), RetNode(i)) in built.edges <==> f.At(i).target == Direct(callee)
    ensures IntraEdge(CallNode(i), RetNode(i)) in built.edges <==> !f.At(i).target.Direct?
  {
    CallEdgeOrigin(f, built, i, CallEdge(CallNode(i), FunEntry(callee)));
    CallEdgeOrigin(f, built, i, RetEdge(FunExit(callee), RetNode(i)));
    CallEdgeOrigin(f, built, i, IntraEdge(CallNode(i), RetNode(i)));
  }

  // q moves along the edges of the graph from instruction to instruction.
  ghost predicate IsGraphWalk(f: Function, built: Built, q: seq<Loc>)
    requires f.WellFormed()
  {
    && (forall k | 0 <= k < |q| :: f.Has(q[k]) && !f.At(q[k]).Intrinsic?)
    && (forall j, k {:trigger q[j], q[k]} | 0 <= j && k == j + 1 < |q| ::
          IntraEdge(ExitOf(f, q[j]), EntryOf(f, q[k])) in built.edges)
  }

  // The walks of the graph are the walks of the control flow with intrinsics erased.
  lemma WalksCorrespond(f: Function, built: Built, q: seq<Loc>)
    requires IsICFG(f, built) && q != []
    ensures IsGraphWalk(f, built, q) <==>
            exists p :: IsWalk(f, p) && p != [] && p[0] == q[0] && p[|p| - 1] == q[|q| - 1] && Erase(f, p) == q
  {
    if IsGraphWalk(f, built, q) {
      forall k | 0 <= k < |q| - 1 ensures q[k + 1] in NextInsts(f, q[k]) { EdgesAreNext(f, built, q[k], q[k + 1]); }
      var p := WalkBehindErasedWalk(f, q);
    }
    if p :| IsWalk(f, p) && p != [] && p[0] == q[0] && p[|p| - 1] == q[|q| - 1] && Erase(f, p) == q {
      ErasedWalkIsWalk(f, p);
      forall k | 0 <= k < |q| - 1 ensures IntraEdge(ExitOf(f, q[k]), EntryOf(f, q[k + 1])) in built.edges {
        EdgesAreNext(f, built, q[k], q[k + 1]);
      }
    }
  }
}
