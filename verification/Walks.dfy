/**
 Walks over links between nodes, and what they cost: 1 for the first hop and the
 impedance of every node that passes the message on.
 */
module Walks {
  import opened Routes

  type Links = set<(NodeId, NodeId)>

  ghost predicate IsWalk(links: Links, p: seq<NodeId>)
  {
    p != [] && forall i, j :: 0 <= i && j == i + 1 && j < |p| ==> (p[i], p[j]) in links
  }

  ghost predicate Joins(links: Links, p: seq<NodeId>, from: NodeId, to: NodeId)
  {
    IsWalk(links, p) && p[0] == from && p[|p| - 1] == to
  }

  function Sum(imp: NodeId -> real, p: seq<NodeId>): real
  {
    if p == [] then 0.0 else imp(p[0]) + Sum(imp, p[1..])
  }

  /** The cost of reaching the end of `p` from a neighbour of its start: every node but the last is passed through. */
  function Weight(imp: NodeId -> real, p: seq<NodeId>): real
    requires p != []
  {
    1.0 + Sum(imp, p[..|p| - 1])
  }

  /** Impedances are clamped from below. */
  ghost predicate Clamped(imp: NodeId -> real)
  {
    forall n :: imp(n) >= 1.0
  }

  lemma {:induction false} SumConcat(imp: NodeId -> real, a: seq<NodeId>, b: seq<NodeId>)
    ensures Sum(imp, a + b) == Sum(imp, a) + Sum(imp, b)
  {
    if a == [] {
      assert a + b == b;
    } else {
      assert (a + b)[1..] == a[1..] + b;
      SumConcat(imp, a[1..], b);
    }
  }

  lemma {:induction false} SumAtLeast(imp: NodeId -> real, p: seq<NodeId>)
    requires Clamped(imp)
    ensures Sum(imp, p) >= |p| as real
  {
    if p != [] {
      SumAtLeast(imp, p[1..]);
    }
  }

  lemma WeightCons(imp: NodeId -> real, n: NodeId, p: seq<NodeId>)
    requires p != []
    ensures Weight(imp, [n] + p) == imp(n) + Weight(imp, p)
  {
    var q := [n] + p;
    assert q[..|q| - 1][1..] == p[..|p| - 1];
  }

  lemma WalkCons(links: Links, n: NodeId, p: seq<NodeId>)
    requires IsWalk(links, p) && (n, p[0]) in links
    ensures IsWalk(links, [n] + p)
  {
    var q := [n] + p;
    forall i, j | 0 <= i && j == i + 1 && j < |q| ensures (q[i], q[j]) in links {
      if i > 0 {
        assert q[i] == p[i - 1] && q[j] == p[j - 1];
      }
    }
  }

  lemma WalkTail(links: Links, p: seq<NodeId>)
    requires IsWalk(links, p) && |p| > 1
    ensures (p[0], p[1]) in links && IsWalk(links, p[1..])
  {
    var q := p[1..];
    forall i, j | 0 <= i && j == i + 1 && j < |q| ensures (q[i], q[j]) in links {
      assert q[i] == p[i + 1] && q[j] == p[j + 1];
    }
  }

  lemma WalkMonotone(links: Links, more: Links, p: seq<NodeId>)
    requires IsWalk(links, p) && links <= more
    ensures IsWalk(more, p)
  {
  }
}
