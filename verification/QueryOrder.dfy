/** In which order variables can be asked for when the sets of top-level variables are cached
    per variable: a query should not read a relay before the relay's variable was asked for. */
module QueryOrder {
  import opened ValueFlowGraph

  // The items that read a relay of a variable whose definition is not completed.
  ghost function Awaiting(g: SVFG, done: set<Item>): set<Item> {
    set x | x in g.items && g.AwaitsRelay(x, done)
  }

  // Those among them that a query for v can visit.
  ghost function Unready(g: SVFG, v: NodeID, done: set<Item>): set<Item> {
    Awaiting(g, done) * g.Scope(g.DefItem(v))
  }

  // A query for v can visit an item that reads a relay of w.
  ghost predicate Needs(g: SVFG, v: NodeID, w: NodeID) {
    g.IsDefined(w) && exists x, e :: x in g.Scope(g.DefItem(v)) && g.ReadsRelay(x, e) && e.cur == w
  }

  // The definitions of the first i queries.
  ghost function Queried(g: SVFG, queries: seq<NodeID>, i: nat): set<Item>
    requires i <= |queries|
  {
    set j | 0 <= j < i :: g.DefItem(queries[j])
  }

  // No query reads a relay whose variable is not completed by then.
  ghost predicate InOrder(g: SVFG, queries: seq<NodeID>, done: set<Item>) {
    forall i | 0 <= i < |queries| :: Unready(g, queries[i], done + Queried(g, queries, i)) == {}
  }

  // The definitions of the queries that ran out of budget.
  ghost function Overrun(g: SVFG, queries: seq<NodeID>, ranOut: seq<bool>): set<Item>
    requires |ranOut| <= |queries|
  {
    set j | 0 <= j < |ranOut| && ranOut[j] :: g.DefItem(queries[j])
  }

  lemma OneMoreQuery(g: SVFG, queries: seq<NodeID>, ranOut: seq<bool>, out: bool)
    requires |ranOut| < |queries|
    ensures var i := |ranOut|; var d := g.DefItem(queries[i]);
      && Queried(g, queries, i + 1) == Queried(g, queries, i) + {d}
      && Overrun(g, queries, ranOut + [out]) == Overrun(g, queries, ranOut) + if out then {d} else {}
  {
    var i, more := |ranOut|, ranOut + [out];
    assert forall j | 0 <= j < i :: more[j] == ranOut[j];
    assert out ==> more[i];
  }

  lemma NextIsReady(g: SVFG, queries: seq<NodeID>, done: set<Item>, i: nat, completed: set<Item>)
    requires InOrder(g, queries, done) && i < |queries| && done + Queried(g, queries, i) <= completed
    ensures Unready(g, queries[i], completed) == {}
  {
    assert Unready(g, queries[i], completed) <= Unready(g, queries[i], done + Queried(g, queries, i));
  }

  lemma UnreadyIffNeeded(g: SVFG, v: NodeID, done: set<Item>)
    ensures Unready(g, v, done) == {} <==> forall w | Needs(g, v, w) :: g.DefItem(w) in done
  {
    if Unready(g, v, done) == {} {
      forall w | Needs(g, v, w) ensures g.DefItem(w) in done {
        var x, e :| x in g.Scope(g.DefItem(v)) && g.ReadsRelay(x, e) && e.cur == w;
        assert x !in Unready(g, v, done);
      }
    } else {
      var x :| x in Unready(g, v, done);
      var e :| e in g.DirectSrcs(x.loc) && g.ReadsRelay(x, e) && g.IsDefined(e.cur) && g.DefItem(e.cur) !in done;
      assert Needs(g, v, e.cur);
    }
  }

  // Every variable that a query needs was asked for before it.
  ghost predicate AskedBefore(g: SVFG, queries: seq<NodeID>) {
    forall i, w | 0 <= i < |queries| && Needs(g, queries[i], w) :: w in queries[..i]
  }

  lemma InOrderIffAskedBefore(g: SVFG, queries: seq<NodeID>)
    ensures InOrder(g, queries, {}) <==> AskedBefore(g, queries)
  {
    forall i | 0 <= i < |queries|
      ensures Unready(g, queries[i], {} + Queried(g, queries, i)) == {} <==>
              forall w | Needs(g, queries[i], w) :: w in queries[..i]
    {
      UnreadyIffNeeded(g, queries[i], {} + Queried(g, queries, i));
      forall w ensures g.DefItem(w) in Queried(g, queries, i) <==> w in queries[..i] {
        if w in queries[..i] {
          var j :| 0 <= j < i && queries[j] == w;
        }
      }
    }
  }

  // Without relays every order will do.
  lemma AnyOrderWithoutRelays(g: SVFG, queries: seq<NodeID>, done: set<Item>)
    requires g.WellFormed() && forall n | n in g.nodes :: !g.IsRelay(n)
    ensures InOrder(g, queries, done)
  {
    forall x, d | x in g.items ensures !g.AwaitsRelay(x, d) {
      assert g.IsItem(x);
    }
  }

  // What a variable among vars needs is among vars and ranks lower.
  ghost predicate IsRanking(g: SVFG, vars: set<NodeID>, rank: NodeID -> nat) {
    forall v, w | v in vars && Needs(g, v, w) :: w in vars && rank(w) < rank(v)
  }

  // A variable can be asked for in order if and only if what it needs can be ranked. One that
  // needs itself cannot.
  lemma InOrderIffRanked(g: SVFG, v: NodeID)
    ensures (exists queries :: InOrder(g, queries, {}) && v in queries) <==>
            (exists vars, rank :: v in vars && IsRanking(g, vars, rank))
    ensures Needs(g, v, v) ==> !exists queries :: InOrder(g, queries, {}) && v in queries
  {
    if queries :| InOrder(g, queries, {}) && v in queries {
      RankingOf(g, queries, v);
    }
    if vars, rank :| v in vars && IsRanking(g, vars, rank) {
      var queries := OrderFor(g, vars, rank, v);
      InOrderIffAskedBefore(g, queries);
      assert v in queries;
    }
  }

  function First(queries: seq<NodeID>, v: NodeID): (i: nat)
    requires v in queries
    ensures i < |queries| && queries[i] == v && forall k | 0 <= k < i :: queries[k] != v
  {
    if queries[0] == v then 0 else 1 + First(queries[1..], v)
  }

  lemma RankingOf(g: SVFG, queries: seq<NodeID>, v: NodeID)
    requires InOrder(g, queries, {}) && v in queries
    ensures exists vars, rank :: v in vars && IsRanking(g, vars, rank)
  {
    InOrderIffAskedBefore(g, queries);
    var vars: set<NodeID> := set q | q in queries;
    var rank: NodeID -> nat := q => if q in queries then First(queries, q) else 0;
    forall a, b | a in vars && Needs(g, a, b) ensures b in vars && rank(b) < rank(a) {
      var i := First(queries, a);
      assert b in queries[..i];
      var j :| 0 <= j < i && queries[j] == b;
      assert First(queries, b) <= j;
    }
    assert v in vars && IsRanking(g, vars, rank);
  }

  // Ask for everything v needs, in order, and then for v.
  lemma OrderFor(g: SVFG, vars: set<NodeID>, rank: NodeID -> nat, v: NodeID) returns (queries: seq<NodeID>)
    requires v in vars && IsRanking(g, vars, rank)
    ensures AskedBefore(g, queries) && v in queries
    decreases rank(v), 1, 0
  {
    var needed := set w | w in vars && Needs(g, v, w);
    var before := OrderForAll(g, vars, rank, needed, rank(v));
    queries := before + [v];
    assert queries[..|before|] == before;
    forall i, w | 0 <= i < |queries| && Needs(g, queries[i], w) ensures w in queries[..i] {
      if i < |before| {
        assert queries[i] == before[i] && queries[..i] == before[..i];
      }
    }
  }

  lemma OrderForAll(g: SVFG, vars: set<NodeID>, rank: NodeID -> nat, some: set<NodeID>, top: nat)
    returns (queries: seq<NodeID>)
    requires some <= vars && IsRanking(g, vars, rank) && forall w | w in some :: rank(w) < top
    ensures AskedBefore(g, queries) && forall w | w in some :: w in queries
    decreases top, 0, some
  {
    queries := [];
    if w :| w in some {
      var first := OrderFor(g, vars, rank, w);
      var rest := OrderForAll(g, vars, rank, some - {w}, top);
      queries := first + rest;
      forall i, u | 0 <= i < |queries| && Needs(g, queries[i], u) ensures u in queries[..i] {
        if i < |first| {
          assert queries[i] == first[i] && queries[..i] == first[..i];
        } else {
          assert queries[i] == rest[i - |first|] && queries[..i] == first + rest[..i - |first|];
        }
      }
    }
  }
}
