/** Paths in a directed graph given by the successors of every node. */
module Reachability {

  type Node = nat
  type Successors = Node -> seq<Node>

  ghost predicate IsPath(next: Successors, p: seq<Node>) {
    p != [] && forall j, k {:trigger p[j], p[k]} | 0 <= j && k == j + 1 < |p| :: p[k] in next(p[j])
  }

  ghost predicate Reaches(next: Successors, u: Node, v: Node) {
    exists p :: IsPath(next, p) && p[0] == u && p[|p| - 1] == v
  }

  lemma ReachesItself(next: Successors, v: Node)
    ensures Reaches(next, v, v)
  {
    assert IsPath(next, [v]);
  }

  lemma ReachesThrough(next: Successors, v: Node, u: Node, w: Node)
    requires u in next(v) && Reaches(next, u, w)
    ensures Reaches(next, v, w)
  {
    var p :| IsPath(next, p) && p[0] == u && p[|p| - 1] == w;
    var q := [v] + p;
    forall k | 0 <= k < |q| - 1 ensures q[k + 1] in next(q[k]) {
      if k > 0 { assert q[k] == p[k - 1] && q[k + 1] == p[k]; }
    }
    assert IsPath(next, q);
  }

  lemma ReachesTransitive(next: Successors, u: Node, v: Node, w: Node)
    requires Reaches(next, u, v) && Reaches(next, v, w)
    ensures Reaches(next, u, w)
  {
    var p :| IsPath(next, p) && p[0] == u && p[|p| - 1] == v;
    var q :| IsPath(next, q) && q[0] == v && q[|q| - 1] == w;
    var r := p + q[1..];
    forall k | 0 <= k < |r| - 1 ensures r[k + 1] in next(r[k]) {
      if k < |p| - 1 {
        assert r[k] == p[k] && r[k + 1] == p[k + 1];
      } else {
        assert r[k] == q[k - |p| + 1] && r[k + 1] == q[k - |p| + 2];
      }
    }
    assert IsPath(next, r);
  }

  // What is closed under successors contains everything reachable from it.
  lemma ClosedContains(next: Successors, s: set<Node>, u: Node, v: Node)
    requires u in s && Reaches(next, u, v)
    requires forall x, y {:trigger x in s, y in next(x)} | x in s && y in next(x) :: y in s
    ensures v in s
  {
    var p :| IsPath(next, p) && p[0] == u && p[|p| - 1] == v;
    ClosedContainsPath(next, s, p);
  }

  lemma {:induction false} ClosedContainsPath(next: Successors, s: set<Node>, p: seq<Node>)
    requires IsPath(next, p) && p[0] in s
    requires forall x, y {:trigger x in s, y in next(x)} | x in s && y in next(x) :: y in s
    ensures p[|p| - 1] in s
  {
    if |p| > 1 { ClosedContainsPath(next, s, p[1..]); }
  }

  // A path of more than one node starts with an edge.
  lemma FirstStep(next: Successors, u: Node, w: Node) returns (v: Node)
    requires Reaches(next, u, w) && u != w
    ensures v in next(u) && Reaches(next, v, w)
  {
    var p :| IsPath(next, p) && p[0] == u && p[|p| - 1] == w;
    v := p[1];
    assert IsPath(next, p[1..]);
  }
}
