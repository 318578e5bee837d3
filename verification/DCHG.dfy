/** The class hierarchy over debug types: canonical types, nodes and edges, and the memoised
    closure of a type's children. */
module DCHG {
  import opened DebugTypes
  import opened Reachability
  import opened Wrappers

  datatype EdgeKind = Inheritance | Instance | FirstField | StdDef

  // An edge at one of its ends: the node at the other end and the kind.
  type End = (Node, EdgeKind)

  // ----- canonical types -----

  // canon maps types to representatives, of which no two are equivalent: equivalent types are
  // those with the same key.
  ghost predicate IsCanonical(canon: map<DIType, DIType>, reps: set<DIType>) {
    && (forall t {:trigger canon[t]} | t in canon :: canon[t] in reps && KeyOf(canon[t]) == KeyOf(t))
    && (forall c {:trigger c in reps} | c in reps :: c in canon && canon[c] == c)
    && (forall c, d {:trigger c in reps, d in reps} | c in reps && d in reps && KeyOf(c) == KeyOf(d) :: c == d)
  }

  // ----- reachability -----

  // The nodes a type's closure goes on to: sources of incoming edges of an allowed kind.
  predicate Allowed(kind: EdgeKind, firstField: bool) {
    kind.Inheritance? || kind.StdDef? || (firstField && kind.FirstField?)
  }

  function Sources(ends: seq<End>, firstField: bool): (r: seq<Node>)
    ensures forall n :: n in r <==> exists e :: e in ends && e.0 == n && Allowed(e.1, firstField)
  {
    if ends == [] then []
    else
      var rest := Sources(ends[1..], firstField);
      assert forall e :: e in ends <==> e == ends[0] || e in ends[1..];
      if Allowed(ends[0].1, firstField) then [ends[0].0] + rest else rest
  }

  function ChildrenOf(inEdges: seq<seq<End>>, firstField: bool): Successors {
    (n: Node) => if n < |inEdges| then Sources(inEdges[n], firstField) else []
  }

  // Node m derives from n, directly or not.
  ghost predicate Derives(inEdges: seq<seq<End>>, firstField: bool, m: Node, n: Node) {
    Reaches(ChildrenOf(inEdges, firstField), n, m)
  }

  ghost predicate IsClosureOf(children: set<Node>, inEdges: seq<seq<End>>, firstField: bool, n: Node) {
    forall m {:trigger m in children} :: m in children <==> Derives(inEdges, firstField, m, n)
  }

  // Every edge of an allowed kind leads from a lower to a higher node, in some ranking.
  ghost predicate IsRanked(inEdges: seq<seq<End>>, firstField: bool, rank: Node -> nat) {
    forall n, m {:trigger m in ChildrenOf(inEdges, firstField)(n)} | m in ChildrenOf(inEdges, firstField)(n) ::
      rank(m) < rank(n)
  }

  lemma {:induction false} RankFalls(inEdges: seq<seq<End>>, firstField: bool, rank: Node -> nat, p: seq<Node>)
    requires IsRanked(inEdges, firstField, rank) && IsPath(ChildrenOf(inEdges, firstField), p)
    ensures rank(p[|p| - 1]) <= rank(p[0]) && (|p| > 1 ==> rank(p[|p| - 1]) < rank(p[0]))
  {
    if |p| > 1 {
      assert p[1] in ChildrenOf(inEdges, firstField)(p[0]);
      RankFalls(inEdges, firstField, rank, p[1..]);
    }
  }

  // On an acyclic hierarchy deriving-from is a partial order.
  lemma DerivesIsPartialOrder(inEdges: seq<seq<End>>, firstField: bool, rank: Node -> nat, a: Node, b: Node, c: Node)
    requires IsRanked(inEdges, firstField, rank)
    ensures Derives(inEdges, firstField, a, a)
    ensures Derives(inEdges, firstField, a, b) && Derives(inEdges, firstField, b, c) ==>
              Derives(inEdges, firstField, a, c)
    ensures Derives(inEdges, firstField, a, b) && Derives(inEdges, firstField, b, a) ==> a == b
  {
    var next := ChildrenOf(inEdges, firstField);
    ReachesItself(next, a);
    if Reaches(next, b, a) && Reaches(next, c, b) { ReachesTransitive(next, c, b, a); }
    if Reaches(next, b, a) && Reaches(next, a, b) {
      var p :| IsPath(next, p) && p[0] == b && p[|p| - 1] == a;
      var q :| IsPath(next, q) && q[0] == a && q[|q| - 1] == b;
      RankFalls(inEdges, firstField, rank, p);
      RankFalls(inEdges, firstField, rank, q);
    }
  }

  // What derives without first-field edges also derives with them.
  lemma DerivesWithFirstField(inEdges: seq<seq<End>>, m: Node, n: Node)
    requires Derives(inEdges, false, m, n)
    ensures Derives(inEdges, true, m, n)
  {
    var p :| IsPath(ChildrenOf(inEdges, false), p) && p[0] == n && p[|p| - 1] == m;
    forall k | 0 <= k < |p| - 1 ensures p[k + 1] in ChildrenOf(inEdges, true)(p[k]) {
      assert p[k + 1] in ChildrenOf(inEdges, false)(p[k]);
    }
    assert IsPath(ChildrenOf(inEdges, true), p);
  }

  // So does the whole closure.
  lemma ClosureGrowsWithFirstField(inEdges: seq<seq<End>>, n: Node, without: set<Node>, with: set<Node>)
    requires IsClosureOf(without, inEdges, false, n) && IsClosureOf(with, inEdges, true, n)
    ensures without <= with
  {
    forall m | m in without ensures m in with {
      DerivesWithFirstField(inEdges, m, n);
    }
  }

  // A new node without edges changes nothing for the others.
  lemma NewNodeChangesNothing(inEdges: seq<seq<End>>, firstField: bool, m: Node, n: Node)
    ensures Derives(inEdges + [[]], firstField, m, n) <==> Derives(inEdges, firstField, m, n)
  {
    var before, after := ChildrenOf(inEdges, firstField), ChildrenOf(inEdges + [[]], firstField);
    assert forall x :: before(x) == after(x);
    if p :| IsPath(before, p) && p[0] == n && p[|p| - 1] == m { assert IsPath(after, p); }
    if p :| IsPath(after, p) && p[0] == n && p[|p| - 1] == m { assert IsPath(before, p); }
  }

  // The closure of a node is the node and the closures of its children.
  lemma ClosureFromChildren(inEdges: seq<seq<End>>, firstField: bool, n: Node, children: set<Node>, parts: map<Node,
                            set<Node>>)
    requires forall c {:trigger c in parts} | c in parts :: IsClosureOf(parts[c], inEdges, firstField, c)
    requires forall c :: c in parts <==> c in ChildrenOf(inEdges, firstField)(n)
    requires forall m {:trigger m in children} :: m in children <==> m == n || exists c :: c in parts && m in parts[c]
    ensures IsClosureOf(children, inEdges, firstField, n)
  {
    var next := ChildrenOf(inEdges, firstField);
    forall m {:trigger m in children} ensures m in children <==> Derives(inEdges, firstField, m, n) {
      if m == n { ReachesItself(next, n); }
      if m != n && Reaches(next, n, m) {
        var c := FirstStep(next, n, m);
        assert c in parts && m in parts[c];
      }
      if m != n && m in children {
        var c :| c in parts && m in parts[c];
        ReachesThrough(next, n, c, m);
      }
    }
  }

  // ----- the graph -----

  // Nodes and representatives with a node correspond, and both ends of an edge know it.
  ghost predicate IsGraph(reps: set<DIType>, nodeOf: map<DIType, Node>, typeOf: seq<DIType>,
                          inEdges: seq<seq<End>>, outEdges: seq<seq<End>>) {
    && |typeOf| == |inEdges| == |outEdges|
    && (forall n {:trigger typeOf[n]} | 0 <= n < |typeOf| ::
          typeOf[n] in reps && typeOf[n] in nodeOf && nodeOf[typeOf[n]] == n)
    && (forall t {:trigger nodeOf[t]} | t in nodeOf :: nodeOf[t] < |typeOf| && typeOf[nodeOf[t]] == t)
    && (forall n, e {:trigger e in inEdges[n]} | 0 <= n < |inEdges| && e in inEdges[n] ::
          e.0 < |outEdges| && (n, e.1) in outEdges[e.0])
    && (forall n, e {:trigger e in outEdges[n]} | 0 <= n < |outEdges| && e in outEdges[n] ::
          e.0 < |inEdges| && (n, e.1) in inEdges[e.0])
  }

  ghost predicate IsNodeOf(n: Node, t: DIType, typeOf: seq<DIType>) {
    n < |typeOf| && KeyOf(typeOf[n]) == KeyOf(t)
  }

  // The cached closures are exact.
  ghost predicate IsCache(cache: map<DIType, set<Node>>, nodeOf: map<DIType, Node>, inEdges: seq<seq<End>>,
                          firstField: bool) {
    forall t {:trigger cache[t]} | t in cache :: t in nodeOf && IsClosureOf(cache[t], inEdges, firstField, nodeOf[t])
  }

  lemma NewNodeKeepsCache(cache: map<DIType, set<Node>>, nodeOf: map<DIType, Node>, nodeOf': map<DIType, Node>,
                          inEdges: seq<seq<End>>, firstField: bool)
    requires IsCache(cache, nodeOf, inEdges, firstField)
    requires forall t | t in nodeOf :: t in nodeOf' && nodeOf'[t] == nodeOf[t]
    ensures IsCache(cache, nodeOf', inEdges + [[]], firstField)
  {
    forall t | t in cache ensures t in nodeOf' && IsClosureOf(cache[t], inEdges + [[]], firstField, nodeOf'[t]) {
      assert IsClosureOf(cache[t], inEdges, firstField, nodeOf[t]);
      forall m {:trigger m in cache[t]}
        ensures m in cache[t] <==> Derives(inEdges + [[]], firstField, m, nodeOf'[t])
      {
        NewNodeChangesNothing(inEdges, firstField, m, nodeOf[t]);
      }
    }
  }

  lemma NewNodeIsGraph(reps: set<DIType>, nodeOf: map<DIType, Node>, typeOf: seq<DIType>,
                       inEdges: seq<seq<End>>, outEdges: seq<seq<End>>, t: DIType)
    requires IsGraph(reps, nodeOf, typeOf, inEdges, outEdges) && t in reps && t !in nodeOf
    ensures IsGraph(reps, nodeOf[t := |typeOf|], typeOf + [t], inEdges + [[]], outEdges + [[]])
  {
  }

  class DCHGraph {
    var canonicalTypeMap: map<DIType, DIType>
    var canonicalTypes: set<DIType>
    var diTypeToNodeMap: map<DIType, Node>
    var nodeType: seq<DIType>
    var inEdges: seq<seq<End>>
    var outEdges: seq<seq<End>>
    var chaMap: map<DIType, set<Node>>
    var chaFFMap: map<DIType, set<Node>>

    constructor ()
      ensures Valid() && nodeType == []
    {
      canonicalTypeMap, canonicalTypes, diTypeToNodeMap := map[], {}, map[];
      nodeType, inEdges, outEdges, chaMap, chaFFMap := [], [], [], map[], map[];
    }

    ghost predicate ValidTypes() reads `canonicalTypeMap, `canonicalTypes {
      IsCanonical(canonicalTypeMap, canonicalTypes)
    }

    ghost predicate ValidGraph() reads `canonicalTypes, `diTypeToNodeMap, `nodeType, `inEdges, `outEdges {
      IsGraph(canonicalTypes, diTypeToNodeMap, nodeType, inEdges, outEdges)
    }

    ghost predicate ValidCaches() reads `diTypeToNodeMap, `inEdges, `chaMap, `chaFFMap {
      IsCache(chaMap, diTypeToNodeMap, inEdges, false) && IsCache(chaFFMap, diTypeToNodeMap, inEdges, true)
    }

    ghost predicate Valid() reads this {
      ValidTypes() && ValidGraph() && ValidCaches()
    }

    // The representative of t; once a type's class has one it never gets another.
    method GetCanonicalType(t: DIType) returns (c: DIType)
      requires ValidTypes()
      modifies `canonicalTypeMap, `canonicalTypes
      ensures ValidTypes() && c in canonicalTypes && KeyOf(c) == KeyOf(t)
      ensures canonicalTypes == old(canonicalTypes) + {c}
      ensures forall d | d in old(canonicalTypes) && KeyOf(d) == KeyOf(t) :: c == d
    {
      var s := StripQualifiers(t);
      StrippedIsEquivalent(t);
      if t in canonicalTypeMap { return canonicalTypeMap[t]; }
      if t != s && s in canonicalTypeMap {
        canonicalTypeMap := canonicalTypeMap[t := canonicalTypeMap[s]];
        return canonicalTypeMap[t];
      }
      var found := FindEquivalent(s);
      if found.Some? {
        canonicalTypeMap := canonicalTypeMap[s := found.value];
        return found.value;
      }
      canonicalTypes := canonicalTypes + {s};
      canonicalTypeMap := canonicalTypeMap[s := s];
      c := s;
    }

    // The loop over the representatives.
    method FindEquivalent(s: DIType) returns (found: Option<DIType>)
      ensures found.Some? ==> found.value in canonicalTypes && KeyOf(found.value) == KeyOf(s)
      ensures found.None? ==> forall d | d in canonicalTypes :: KeyOf(d) != KeyOf(s)
    {
      var rest := canonicalTypes;
      while rest != {}
        invariant rest <= canonicalTypes
        invariant forall d | d in canonicalTypes - rest :: KeyOf(d) != KeyOf(s)
      {
        var d :| d in rest;
        TeqIsSameKey(s, d);
        if Teq(s, d) { return Some(d); }
        rest := rest - {d};
      }
      found := None;
    }

    // Over any sequence of calls two types get the same representative exactly when they are
    // equivalent, and a representative is its own.
    method CanonicalTypes(ts: seq<DIType>) returns (cs: seq<DIType>)
      requires ValidTypes()
      modifies `canonicalTypeMap, `canonicalTypes
      ensures ValidTypes() && |cs| == |ts|
      ensures forall i | 0 <= i < |ts| :: Teq(cs[i], ts[i])
      ensures forall i, j | 0 <= i < |ts| && 0 <= j < |ts| :: cs[i] == cs[j] <==> Teq(ts[i], ts[j])
      ensures forall i, j | 0 <= i < |ts| && 0 <= j < |ts| && ts[j] == cs[i] :: cs[j] == cs[i]
      ensures forall i, d | 0 <= i < |ts| && d in old(canonicalTypes) && Teq(d, ts[i]) :: cs[i] == d
    {
      cs := [];
      for i := 0 to |ts|
        invariant ValidTypes() && |cs| == i && old(canonicalTypes) <= canonicalTypes
        invariant forall k | 0 <= k < i :: cs[k] in canonicalTypes && KeyOf(cs[k]) == KeyOf(ts[k])
      {
        var c := GetCanonicalType(ts[i]);
        cs := cs + [c];
      }
      forall i, t | 0 <= i < |ts| ensures Teq(cs[i], t) <==> KeyOf(ts[i]) == KeyOf(t) { TeqIsSameKey(cs[i], t); }
      forall i, t | 0 <= i < |ts| ensures Teq(ts[i], t) <==> KeyOf(ts[i]) == KeyOf(t) { TeqIsSameKey(ts[i], t); }
      forall i, d | 0 <= i < |ts| && d in old(canonicalTypes) && Teq(d, ts[i]) ensures cs[i] == d {
        TeqIsSameKey(d, ts[i]);
      }
    }

    method GetOrCreateNode(type_: DIType) returns (n: Node)
      requires Valid()
      modifies `canonicalTypeMap, `canonicalTypes, `diTypeToNodeMap, `nodeType, `inEdges, `outEdges
      ensures Valid() && IsNodeOf(n, type_, nodeType) && old(canonicalTypes) <= canonicalTypes
      ensures HasNode(type_, old(nodeType)) ==> GraphUnchanged(old(nodeType), old(inEdges), old(outEdges))
      ensures !HasNode(type_, old(nodeType)) ==>
                && n == old(|nodeType|) && nodeType == old(nodeType) + [nodeType[n]]
                && inEdges == old(inEdges) + [[]] && outEdges == old(outEdges) + [[]]
    {
      var t := GetCanonicalType(type_);
      SameKeyNode(canonicalTypeMap, canonicalTypes, diTypeToNodeMap, nodeType, inEdges, outEdges, t, type_);
      if t in diTypeToNodeMap { return diTypeToNodeMap[t]; }
      n := |nodeType|;
      NewNodeIsGraph(canonicalTypes, diTypeToNodeMap, nodeType, inEdges, outEdges, t);
      NewNodeKeepsCache(chaMap, diTypeToNodeMap, diTypeToNodeMap[t := n], inEdges, false);
      NewNodeKeepsCache(chaFFMap, diTypeToNodeMap, diTypeToNodeMap[t := n], inEdges, true);
      diTypeToNodeMap := diTypeToNodeMap[t := n];
      nodeType, inEdges, outEdges := nodeType + [t], inEdges + [[]], outEdges + [[]];
    }

    ghost predicate GraphUnchanged(typeOf: seq<DIType>, inE: seq<seq<End>>, outE: seq<seq<End>>)
      reads `nodeType, `inEdges, `outEdges
    {
      nodeType == typeOf && inEdges == inE && outEdges == outE
    }

    method HasEdge(src: Node, dst: Node, kind: EdgeKind) returns (found: bool)
      requires src < |outEdges|
      ensures found <==> (dst, kind) in outEdges[src]
    {
      var ends := outEdges[src];
      for i := 0 to |ends|
        invariant (dst, kind) !in ends[..i]
      {
        assert ends[..i + 1] == ends[..i] + [ends[i]];
        if ends[i] == (dst, kind) { return true; }
      }
      assert ends[..|ends|] == ends;
      found := false;
    }

    method GetOrCreateBoth(t1: DIType, t2: DIType) returns (src: Node, dst: Node)
      requires Valid()
      modifies `canonicalTypeMap, `canonicalTypes, `diTypeToNodeMap, `nodeType, `inEdges, `outEdges
      ensures Valid() && IsNodeOf(src, t1, nodeType) && IsNodeOf(dst, t2, nodeType)
      ensures EdgesOf(inEdges) == old(EdgesOf(inEdges))
      ensures src < old(|nodeType|) && dst < old(|nodeType|) ==>
                GraphUnchanged(old(nodeType), old(inEdges), old(outEdges))
    {
      src := GetOrCreateNode(t1);
      ghost var between := inEdges;
      NewNodesHaveNoEdges(old(inEdges), between);
      dst := GetOrCreateNode(t2);
      NewNodesHaveNoEdges(between, inEdges);
    }

    // The edge is there afterwards, and it was added only if it was not there before.
    method AddEdge(t1: DIType, t2: DIType, kind: EdgeKind) returns (src: Node, dst: Node)
      requires Valid()
      modifies `canonicalTypeMap, `canonicalTypes, `diTypeToNodeMap, `nodeType, `inEdges, `outEdges
      ensures ValidTypes() && ValidGraph()
      ensures chaMap == chaFFMap == map[] ==> ValidCaches()
      ensures IsNodeOf(src, t1, nodeType) && IsNodeOf(dst, t2, nodeType)
      ensures EdgesOf(inEdges) == old(EdgesOf(inEdges)) + {(src, kind, dst)}
      ensures (src, kind, dst) in old(EdgesOf(inEdges)) ==>
                GraphUnchanged(old(nodeType), old(inEdges), old(outEdges))
    {
      src, dst := GetOrCreateBoth(t1, t2);
      AddBetween(src, dst, kind);
    }

    method AddBetween(src: Node, dst: Node, kind: EdgeKind)
      requires ValidGraph() && src < |nodeType| && dst < |nodeType|
      modifies `inEdges, `outEdges
      ensures ValidGraph() && EdgesOf(inEdges) == old(EdgesOf(inEdges)) + {(src, kind, dst)}
      ensures (src, kind, dst) in old(EdgesOf(inEdges)) ==> inEdges == old(inEdges) && outEdges == old(outEdges)
    {
      var found := HasEdge(src, dst, kind);
      EdgeIsKnown(canonicalTypes, diTypeToNodeMap, nodeType, inEdges, outEdges, src, dst, kind);
      if !found { InsertEdge(src, dst, kind); }
    }

    method InsertEdge(src: Node, dst: Node, kind: EdgeKind)
      requires ValidGraph() && src < |nodeType| && dst < |nodeType|
      modifies `inEdges, `outEdges
      ensures ValidGraph() && EdgesOf(inEdges) == old(EdgesOf(inEdges)) + {(src, kind, dst)}
    {
      NewEdgeIsGraph(canonicalTypes, diTypeToNodeMap, nodeType, inEdges, outEdges, src, dst, kind);
      outEdges := outEdges[src := outEdges[src] + [(dst, kind)]];
      inEdges := inEdges[dst := inEdges[dst] + [(src, kind)]];
    }

    // The nodes of all types that derive from a type, itself included, and the type's own
    // node. The ranking stands for the hierarchy being acyclic, depth bounds the recursion.
    method Cha(type_: DIType, firstField: bool, ghost rank: Node -> nat, ghost depth: nat)
      returns (children: set<Node>, ghost node: Node)
      requires Valid() && IsRanked(inEdges, firstField, rank)
      requires forall n: Node | IsNodeOf(n, type_, nodeType) :: rank(n) < depth
      modifies this
      ensures Valid() && IsNodeOf(node, type_, nodeType)
      ensures IsClosureOf(children, inEdges, firstField, node)
      ensures HasNode(type_, old(nodeType)) ==> GraphUnchanged(old(nodeType), old(inEdges), old(outEdges))
      decreases depth, 1
    {
      var t := GetCanonicalType(type_);
      SameKeyNode(canonicalTypeMap, canonicalTypes, diTypeToNodeMap, nodeType, inEdges, outEdges, t, type_);
      var cache := if firstField then chaFFMap else chaMap;
      if t in cache {
        children, node := cache[t], diTypeToNodeMap[t];
        return;
      }
      assert forall m: Node :: IsNodeOf(m, t, nodeType) == IsNodeOf(m, type_, nodeType);
      children, node := ComputeClosure(t, firstField, rank, depth);
    }

    method ComputeClosure(t: DIType, firstField: bool, ghost rank: Node -> nat, ghost depth: nat)
      returns (children: set<Node>, ghost node: Node)
      requires Valid() && IsRanked(inEdges, firstField, rank) && t in canonicalTypes
      requires forall n: Node | IsNodeOf(n, t, nodeType) :: rank(n) < depth
      modifies this
      ensures Valid() && IsNodeOf(node, t, nodeType)
      ensures IsClosureOf(children, inEdges, firstField, node)
      ensures HasNode(t, old(nodeType)) ==> GraphUnchanged(old(nodeType), old(inEdges), old(outEdges))
      decreases depth, 0, 1
    {
      RankedWithNewNode(inEdges, firstField, rank);
      var n := GetOrCreateNode(t);
      node := n;
      assert nodeType[n] in canonicalTypes;
      assert nodeType[n] == t;
      children := ChildrenOfNode(n, firstField, rank, depth);
      Remember(t, children, firstField, n);
    }

    // A first result is kept, as a map insertion keeps an existing entry.
    method Remember(t: DIType, children: set<Node>, firstField: bool, ghost n: Node)
      requires Valid() && t in diTypeToNodeMap && diTypeToNodeMap[t] == n
      requires IsClosureOf(children, inEdges, firstField, n)
      modifies `chaMap, `chaFFMap
      ensures Valid()
    {
      if firstField {
        if t !in chaFFMap { chaFFMap := chaFFMap[t := children]; }
      } else {
        if t !in chaMap { chaMap := chaMap[t := children]; }
      }
    }

    // The loop over the incoming edges.
    method ChildrenOfNode(n: Node, firstField: bool, ghost rank: Node -> nat, ghost depth: nat)
      returns (children: set<Node>)
      requires Valid() && n < |nodeType| && IsRanked(inEdges, firstField, rank)
      requires inEdges[n] == [] || rank(n) < depth
      modifies this
      ensures Valid() && IsClosureOf(children, inEdges, firstField, n)
      ensures GraphUnchanged(old(nodeType), old(inEdges), old(outEdges))
      decreases depth, 0, 0
    {
      children := {n};
      ghost var parts: map<Node, set<Node>> := map[];
      var ends := inEdges[n];
      for i := 0 to |ends|
        invariant Valid() && GraphUnchanged(old(nodeType), old(inEdges), old(outEdges))
        invariant Collected(children, parts, n, inEdges, ends[..i], firstField)
      {
        assert ends[..i + 1] == ends[..i] + [ends[i]];
        assert ends[i] in ends;
        if Allowed(ends[i].1, firstField) {
          var more := ChildClosure(n, ends[i], firstField, rank);
          CollectedNext(children, parts, n, inEdges, ends[..i], firstField, ends[i], more);
          children, parts := children + more, parts[ends[i].0 := more];
        } else {
          CollectedSkip(children, parts, n, inEdges, ends[..i], firstField, ends[i]);
        }
      }
      assert ends[..|ends|] == ends;
      ClosureFromChildren(inEdges, firstField, n, children, parts);
    }

    method ChildClosure(n: Node, end: End, firstField: bool, ghost rank: Node -> nat) returns (more: set<Node>)
      requires Valid() && n < |nodeType| && IsRanked(inEdges, firstField, rank)
      requires end in inEdges[n] && Allowed(end.1, firstField)
      modifies this
      ensures Valid() && IsClosureOf(more, inEdges, firstField, end.0)
      ensures GraphUnchanged(old(nodeType), old(inEdges), old(outEdges))
      decreases rank(n), 2
    {
      ghost var src := end.0;
      assert src in ChildrenOf(inEdges, firstField)(n);
      NodeIsUnique(canonicalTypes, canonicalTypeMap, diTypeToNodeMap, nodeType, inEdges, outEdges, src);
      ghost var node: Node;
      more, node := Cha(nodeType[end.0], firstField, rank, rank(n));
    }

    // Whether b derives from a.
    method IsBase(a: DIType, b: DIType, firstField: bool, ghost rank: Node -> nat)
      returns (r: bool, ghost aNode: Node, ghost bNode: Node)
      requires Valid() && IsRanked(inEdges, firstField, rank) && HasNode(a, nodeType) && HasNode(b, nodeType)
      modifies this
      ensures Valid() && GraphUnchanged(old(nodeType), old(inEdges), old(outEdges))
      ensures IsNodeOf(aNode, a, nodeType) && IsNodeOf(bNode, b, nodeType)
      ensures r <==> Derives(inEdges, firstField, bNode, aNode)
    {
      var t := GetCanonicalType(b);
      SameKeyNode(canonicalTypeMap, canonicalTypes, diTypeToNodeMap, nodeType, inEdges, outEdges, t, b);
      var n := diTypeToNodeMap[t];
      bNode := n;
      ghost var top: Node :| IsNodeOf(top, a, nodeType);
      var children;
      children, aNode := Cha(a, firstField, rank, rank(top) + 1);
      r := n in children;
    }
  }

  type Edge = (Node, EdgeKind, Node)

  lemma EdgeIsKnown(reps: set<DIType>, nodeOf: map<DIType, Node>, typeOf: seq<DIType>,
                    inEdges: seq<seq<End>>, outEdges: seq<seq<End>>, src: Node, dst: Node, kind: EdgeKind)
    requires IsGraph(reps, nodeOf, typeOf, inEdges, outEdges) && src < |typeOf| && dst < |typeOf|
    ensures (dst, kind) in outEdges[src] <==> (src, kind, dst) in EdgesOf(inEdges)
  {
    if (dst, kind) in outEdges[src] { assert (src, kind) in inEdges[dst]; }
    if (src, kind, dst) in EdgesOf(inEdges) { assert (src, kind) in inEdges[dst]; }
  }

  ghost function EdgesOf(inEdges: seq<seq<End>>): set<Edge> {
    set n, e | 0 <= n < |inEdges| && e in inEdges[n] :: (e.0, e.1, n)
  }

  lemma NewNodesHaveNoEdges(before: seq<seq<End>>, after: seq<seq<End>>)
    requires after == before || after == before + [[]]
    ensures EdgesOf(after) == EdgesOf(before)
  {
    assert forall n, e | 0 <= n < |after| && e in after[n] :: n < |before| && after[n] == before[n];
    assert forall n | 0 <= n < |before| :: after[n] == before[n];
  }

  lemma NewEdgeIsGraph(reps: set<DIType>, nodeOf: map<DIType, Node>, typeOf: seq<DIType>,
                       inEdges: seq<seq<End>>, outEdges: seq<seq<End>>, src: Node, dst: Node, kind: EdgeKind)
    requires IsGraph(reps, nodeOf, typeOf, inEdges, outEdges) && src < |typeOf| && dst < |typeOf|
    ensures var inE, outE := inEdges[dst := inEdges[dst] + [(src, kind)]],
                             outEdges[src := outEdges[src] + [(dst, kind)]];
            IsGraph(reps, nodeOf, typeOf, inE, outE) && EdgesOf(inE) == EdgesOf(inEdges) + {(src, kind, dst)}
  {
    var inE := inEdges[dst := inEdges[dst] + [(src, kind)]];
    forall edge ensures edge in EdgesOf(inE) <==> edge in EdgesOf(inEdges) + {(src, kind, dst)} {
      if edge in EdgesOf(inE) {
        var n: Node, e: End :| 0 <= n < |inE| && e in inE[n] && edge == (e.0, e.1, n);
        assert e in inEdges[n] || (n == dst && e == (src, kind));
      }
      if edge in EdgesOf(inEdges) {
        var n: Node, e: End :| 0 <= n < |inEdges| && e in inEdges[n] && edge == (e.0, e.1, n);
        assert e in inE[n];
      }
      if edge == (src, kind, dst) { assert (src, kind) in inE[dst]; }
    }
  }

  ghost predicate HasNode(t: DIType, typeOf: seq<DIType>) {
    exists n: Node :: IsNodeOf(n, t, typeOf)
  }

  // A type has a node exactly when its representative has one.
  lemma SameKeyNode(canon: map<DIType, DIType>, reps: set<DIType>, nodeOf: map<DIType, Node>, typeOf: seq<DIType>,
                    inEdges: seq<seq<End>>, outEdges: seq<seq<End>>, c: DIType, t: DIType)
    requires IsCanonical(canon, reps) && IsGraph(reps, nodeOf, typeOf, inEdges, outEdges)
    requires c in reps && KeyOf(c) == KeyOf(t)
    ensures HasNode(t, typeOf) <==> c in nodeOf
    ensures forall n: Node | IsNodeOf(n, t, typeOf) :: c in nodeOf && n == nodeOf[c]
    ensures c in nodeOf ==> IsNodeOf(nodeOf[c], t, typeOf)
  {
    forall n: Node | IsNodeOf(n, t, typeOf) ensures c in nodeOf && n == nodeOf[c] {
      assert typeOf[n] in reps;
    }
    if c in nodeOf {
      assert typeOf[nodeOf[c]] == c;
      assert IsNodeOf(nodeOf[c], t, typeOf);
    }
  }

  lemma NodeIsUnique(reps: set<DIType>, canon: map<DIType, DIType>, nodeOf: map<DIType, Node>, typeOf: seq<DIType>,
                     inEdges: seq<seq<End>>, outEdges: seq<seq<End>>, n: Node)
    requires IsCanonical(canon, reps) && IsGraph(reps, nodeOf, typeOf, inEdges, outEdges) && n < |typeOf|
    ensures IsNodeOf(n, typeOf[n], typeOf)
    ensures forall m: Node | IsNodeOf(m, typeOf[n], typeOf) :: m == n
  {
    SameKeyNode(canon, reps, nodeOf, typeOf, inEdges, outEdges, typeOf[n], typeOf[n]);
  }

  lemma RankedWithNewNode(inEdges: seq<seq<End>>, firstField: bool, rank: Node -> nat)
    requires IsRanked(inEdges, firstField, rank)
    ensures IsRanked(inEdges + [[]], firstField, rank)
  {
    forall n, m {:trigger m in ChildrenOf(inEdges + [[]], firstField)(n)} |
        m in ChildrenOf(inEdges + [[]], firstField)(n)
      ensures rank(m) < rank(n)
    {
      assert m in ChildrenOf(inEdges, firstField)(n);
    }
  }

  // The closures collected for the ends seen so far, by node.
  ghost predicate Collected(children: set<Node>, parts: map<Node, set<Node>>, n: Node, inEdges: seq<seq<End>>,
                            ends: seq<End>, firstField: bool) {
    && (forall c {:trigger c in parts} | c in parts :: IsClosureOf(parts[c], inEdges, firstField, c))
    && (forall c :: c in parts <==> c in Sources(ends, firstField))
    && (forall m {:trigger m in children} :: m in children <==> m == n || exists c :: c in parts && m in parts[c])
  }

  lemma CollectedNext(children: set<Node>, parts: map<Node, set<Node>>, n: Node, inEdges: seq<seq<End>>,
                      ends: seq<End>, firstField: bool, end: End, more: set<Node>)
    requires Collected(children, parts, n, inEdges, ends, firstField)
    requires Allowed(end.1, firstField) && IsClosureOf(more, inEdges, firstField, end.0)
    ensures Collected(children + more, parts[end.0 := more], n, inEdges, ends + [end], firstField)
  {
    if end.0 in parts { SameClosure(parts[end.0], more, inEdges, firstField, end.0); }
    UnionNext(children, parts, n, end.0, more);
    forall c ensures c in parts[end.0 := more] <==> c in Sources(ends + [end], firstField) {
      SourcesNext(ends, end, firstField, c);
    }
  }

  lemma UnionNext(children: set<Node>, parts: map<Node, set<Node>>, n: Node, src: Node, more: set<Node>)
    requires forall m {:trigger m in children} :: m in children <==> m == n || exists c :: c in parts && m in parts[c]
    requires src in parts ==> parts[src] == more
    ensures var parts' := parts[src := more];
            forall m {:trigger m in children + more} ::
              m in children + more <==> m == n || exists c :: c in parts' && m in parts'[c]
  {
    var parts' := parts[src := more];
    forall m {:trigger m in children + more}
      ensures m in children + more <==> m == n || exists c :: c in parts' && m in parts'[c]
    {
      if m in children && m != n {
        var c :| c in parts && m in parts[c];
        assert c in parts' && m in parts'[c];
      }
      if m in more { assert src in parts' && m in parts'[src]; }
      if c :| c in parts' && m in parts'[c] { assert c == src || (c in parts && m in parts[c]); }
    }
  }

  lemma CollectedSkip(children: set<Node>, parts: map<Node, set<Node>>, n: Node, inEdges: seq<seq<End>>,
                      ends: seq<End>, firstField: bool, end: End)
    requires Collected(children, parts, n, inEdges, ends, firstField) && !Allowed(end.1, firstField)
    ensures Collected(children, parts, n, inEdges, ends + [end], firstField)
  {
    forall c ensures c in parts <==> c in Sources(ends + [end], firstField) {
      SourcesNext(ends, end, firstField, c);
    }
  }

  lemma SourcesNext(ends: seq<End>, end: End, firstField: bool, n: Node)
    ensures n in Sources(ends + [end], firstField) <==>
            n in Sources(ends, firstField) || (n == end.0 && Allowed(end.1, firstField))
  {
    assert forall e :: e in ends + [end] <==> e in ends || e == end;
  }

  lemma SameClosure(a: set<Node>, b: set<Node>, inEdges: seq<seq<End>>, firstField: bool, n: Node)
    requires IsClosureOf(a, inEdges, firstField, n) && IsClosureOf(b, inEdges, firstField, n)
    ensures a == b
  {
    assert forall m :: m in a <==> m in b;
  }
}
