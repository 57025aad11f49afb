/**
 Which capability lists travel in a gossip frame: those of the ranked nodes, and in
 the room that is left those of the least names.
 */
module Horizon {
  import opened Arithmetic
  import opened Wrappers
  import opened Ordering
  import opened Routes

  /** The nodes taken from the ranked routes, in order, while the budget lasts. */
  function Drain(known: set<NodeId>, self: NodeId, ranked: seq<GossipRoute>, budget: int): (s: set<NodeId>)
    ensures s <= known - {self}
    ensures budget >= 0 ==> |s| <= budget
  {
    if ranked == [] then {}
    else
      var s := Drain(known, self, ranked[..|ranked| - 1], budget);
      var x := ranked[|ranked| - 1].target;
      if |s| >= budget || x == self || x !in known then s else s + {x}
  }

  /** Once the budget is used up nothing more is taken, whatever follows. */
  lemma {:induction false} DrainStays(known: set<NodeId>, self: NodeId, ranked: seq<GossipRoute>, budget: int, i: nat)
    requires i <= |ranked|
    ensures Drain(known, self, ranked[..i], budget) <= Drain(known, self, ranked, budget)
    ensures |Drain(known, self, ranked[..i], budget)| >= budget ==>
              Drain(known, self, ranked, budget) == Drain(known, self, ranked[..i], budget)
    decreases |ranked| - i
  {
    if i == |ranked| {
      assert ranked[..i] == ranked;
    } else {
      assert ranked[..i + 1][..i] == ranked[..i];
      DrainStays(known, self, ranked, budget, i + 1);
    }
  }

  /** A ranked node with known capabilities is left out only if those before it used the budget up. */
  lemma DrainInOrder(known: set<NodeId>, self: NodeId, ranked: seq<GossipRoute>, budget: int, i: nat)
    requires i < |ranked| && ranked[i].target in known && ranked[i].target != self
    ensures ranked[i].target !in Drain(known, self, ranked, budget) ==>
              && |Drain(known, self, ranked[..i], budget)| >= budget
              && Drain(known, self, ranked, budget) == Drain(known, self, ranked[..i], budget)
  {
    assert ranked[..i + 1][..i] == ranked[..i];
    DrainStays(known, self, ranked, budget, i);
    DrainStays(known, self, ranked, budget, i + 1);
  }

  /** Only ranked nodes are drained. */
  lemma {:induction false} DrainRankedOnly(known: set<NodeId>, self: NodeId, ranked: seq<GossipRoute>, budget: int)
    ensures Drain(known, self, ranked, budget) <= Named(ranked)
  {
    if ranked != [] {
      var last := |ranked| - 1;
      DrainRankedOnly(known, self, ranked[..last], budget);
      NamedSnoc(ranked[..last], ranked[last]);
      assert ranked == ranked[..last] + [ranked[last]];
    }
  }

  /** `part` holds the `n` least names of `pool`, or all of them if there are fewer. */
  ghost predicate LeastPart(pool: set<NodeId>, n: nat, part: set<NodeId>)
  {
    && part <= pool
    && |part| == Min(|pool|, n)
    && forall x, y :: x in part && y in pool - part ==> Before(x, y)
  }

  lemma LeastPartUnique(pool: set<NodeId>, n: nat, a: set<NodeId>, b: set<NodeId>)
    requires LeastPart(pool, n, a) && LeastPart(pool, n, b)
    ensures a == b
  {
    SameSizeDiffer(a, b);
    if a != b {
      var x :| x in a && x !in b;
      var y :| y in b && y !in a;
      BeforeAsymmetric(x, y);
    }
  }

  lemma BeforeAsymmetric(x: NodeId, y: NodeId)
    ensures !(Before(x, y) && Before(y, x))
  {
    BeforeIsStrictOrder();
  }

  lemma SameSizeDiffer(a: set<NodeId>, b: set<NodeId>)
    requires |a| == |b|
    ensures a == b || ((exists x :: x in a && x !in b) && (exists y :: y in b && y !in a))
  {
    assert a + (b - a) == b + (a - b);
    assert |a| + |b - a| == |a + (b - a)| == |b| + |a - b|;
    if a - b == {} {
      assert b - a == {};
    }
  }

  function Slack(budget: int, taken: set<NodeId>): nat
  {
    if budget <= |taken| then 0 else budget - |taken|
  }

  function Keep(caps: Capabilities, nodes: set<NodeId>): Capabilities
  {
    map n | n in caps && n in nodes :: caps[n]
  }

  predicate Within(part: Capabilities, caps: Capabilities)
  {
    forall n :: n in part ==> n in caps && part[n] == caps[n]
  }

  lemma WithinKeep(part: Capabilities, caps: Capabilities)
    requires Within(part, caps)
    ensures part == Keep(caps, part.Keys)
  {
  }

  /** The capability subset a gossip frame carries, or nothing when it would be empty. */
  ghost predicate IsHorizon(caps: Capabilities, self: NodeId, ranked: seq<GossipRoute>, budget: int,
                            r: Option<Capabilities>)
  {
    var drained := Drain(caps.Keys, self, ranked, budget);
    exists fill ::
      && LeastPart(caps.Keys - {self} - drained, Slack(budget, drained), fill)
      && r == HorizonOf(caps, drained + fill)
  }

  function HorizonOf(caps: Capabilities, nodes: set<NodeId>): Option<Capabilities>
  {
    if nodes == {} then None else Some(Keep(caps, nodes))
  }

  /** When the ranked routes fit in the budget, every one with known capabilities is taken. */
  lemma {:induction false} DrainAll(known: set<NodeId>, self: NodeId, ranked: seq<GossipRoute>, budget: int)
    requires |ranked| <= budget
    ensures Drain(known, self, ranked, budget) == (known - {self}) * Named(ranked)
    ensures |Drain(known, self, ranked, budget)| <= |ranked|
  {
    if ranked != [] {
      var last := |ranked| - 1;
      var front := ranked[..last];
      assert ranked == front + [ranked[last]];
      NamedSnoc(front, ranked[last]);
      DrainAll(known, self, front, budget);
    }
  }

  /**
   The horizon does not depend on the order of the ranked routes nor on the
   order in which the capability map is walked.
   */
  lemma HorizonOrderIndependent(caps: Capabilities, self: NodeId, ranked: seq<GossipRoute>, ranked': seq<GossipRoute>,
                                budget: int, r: Option<Capabilities>, r': Option<Capabilities>)
    requires |ranked| <= budget && |ranked'| <= budget && Named(ranked) == Named(ranked')
    requires IsHorizon(caps, self, ranked, budget, r) && IsHorizon(caps, self, ranked', budget, r')
    ensures r == r'
  {
    DrainAll(caps.Keys, self, ranked, budget);
    DrainAll(caps.Keys, self, ranked', budget);
    var drained := Drain(caps.Keys, self, ranked, budget);
    var pool := caps.Keys - {self} - drained;
    var fill :| LeastPart(pool, Slack(budget, drained), fill) && r == HorizonOf(caps, drained + fill);
    var fill' :| LeastPart(pool, Slack(budget, drained), fill') && r' == HorizonOf(caps, drained + fill');
    LeastPartUnique(pool, Slack(budget, drained), fill, fill');
  }

  /**
   What the horizon holds when the ranked routes fit in the budget: every ranked
   node with known capabilities, then the least of the others, at most `budget`
   nodes, never the sender; nothing at all only if there is no one to report.
   */
  lemma HorizonContents(caps: Capabilities, self: NodeId, ranked: seq<GossipRoute>, budget: int, r: Option<Capabilities>)
    requires |ranked| <= budget && IsHorizon(caps, self, ranked, budget, r)
    ensures r.Some? <==> caps.Keys - {self} != {} && budget > 0
    ensures r.Some? ==>
              && r.value == Keep(caps, r.value.Keys) && (forall n :: n in r.value ==> r.value[n] == caps[n])
              && (caps.Keys - {self}) * Named(ranked) <= r.value.Keys <= caps.Keys - {self}
              && |r.value.Keys| == Min(|caps.Keys - {self}|, budget)
              && forall n, m :: n in r.value.Keys - Named(ranked) && m in caps.Keys - {self} - r.value.Keys
                                ==> Before(n, m)
  {
    hide Drain, Named;
    DrainAll(caps.Keys, self, ranked, budget);
    var all := caps.Keys - {self};
    var drained := Drain(caps.Keys, self, ranked, budget);
    var fill :| LeastPart(all - drained, Slack(budget, drained), fill) && r == HorizonOf(caps, drained + fill);
    HorizonSize(all, drained, fill, budget);
    if r.Some? {
      assert r.value.Keys == drained + fill;
    }
  }

  lemma HorizonSize(all: set<NodeId>, drained: set<NodeId>, fill: set<NodeId>, budget: int)
    requires drained <= all && LeastPart(all - drained, Slack(budget, drained), fill) && |drained| <= budget
    ensures |drained + fill| == Min(|all|, budget)
    ensures drained + fill == {} <==> all == {} || budget <= 0
  {
    assert |drained + fill| == |drained| + |fill|;
    assert all == drained + (all - drained) && |all| == |drained| + |all - drained|;
  }

  /** Selects the capability entries that travel in a gossip frame. */
  method CapHorizonRanked(caps: Capabilities, self: NodeId, ranked: seq<GossipRoute>, budget: int)
    returns (r: Option<Capabilities>)
    ensures IsHorizon(caps, self, ranked, budget, r)
  {
    hide Drain, Distinct, Sorted, WeakOrder, StrictOrder, Prefix, Keep, Within, LeastPart, IsHorizon;
    if |caps| == 0 || budget <= 0 {
      DrainNothing(caps.Keys, self, ranked, budget);
      NothingToTake(caps, self, budget);
      HorizonBuilt(caps, self, ranked, budget, {}, map[]);
      return None;
    }
    var result := DrainRanked(caps, self, ranked, budget);
    ghost var drained := result.Keys;
    ghost var fill: set<NodeId>;
    assert |result| == |drained|;
    if |result| < budget {
      result, fill := FillUp(caps, self, budget, result);
    } else {
      fill := {};
      NoneIsLeast(caps.Keys - {self} - drained);
    }
    assert result.Keys == drained + fill;
    HorizonBuilt(caps, self, ranked, budget, fill, result);
    r := if |result| == 0 then None else Some(result);
  }

  /** Fills what the budget leaves with the least of the other known nodes. */
  method FillUp(caps: Capabilities, self: NodeId, budget: int, taken: Capabilities)
    returns (result: Capabilities, ghost fill: set<NodeId>)
    requires |taken| < budget && Within(taken, caps)
    ensures LeastPart(caps.Keys - {self} - taken.Keys, Slack(budget, taken.Keys), fill)
    ensures result.Keys == taken.Keys + fill && Within(result, caps)
  {
    hide Distinct, Sorted, WeakOrder, StrictOrder, Prefix, Within, LeastPart;
    var remaining := Remaining(caps, self, taken);
    BeforeIsStrictOrder();
    var sorted := SortBy(Before, remaining);
    SortedStrictly(remaining, sorted);
    assert forall i :: 0 <= i < |sorted| ==> sorted[i] in remaining;
    assert |taken| == |taken.Keys|;
    fill := Prefix(sorted, Min(|sorted|, budget - |taken|));
    LeastPartOf(sorted, caps.Keys - {self} - taken.Keys, Slack(budget, taken.Keys), fill);
    result := FillSlack(caps, sorted, budget, taken);
  }

  lemma NothingToTake(caps: Capabilities, self: NodeId, budget: int)
    requires |caps| == 0 || budget <= 0
    ensures LeastPart(caps.Keys - {self} - {}, Slack(budget, {}), {})
    ensures Within(map[], caps)
  {
    assert |caps| == 0 ==> caps.Keys - {self} - {} == {};
  }

  lemma HorizonBuilt(caps: Capabilities, self: NodeId, ranked: seq<GossipRoute>, budget: int,
                     fill: set<NodeId>, result: Capabilities)
    requires var drained := Drain(caps.Keys, self, ranked, budget);
             && LeastPart(caps.Keys - {self} - drained, Slack(budget, drained), fill)
             && result.Keys == drained + fill && Within(result, caps)
    ensures IsHorizon(caps, self, ranked, budget, if |result| == 0 then None else Some(result))
  {
    hide Drain, LeastPart, Slack;
    WithinKeep(result, caps);
    assert |result| == |result.Keys|;
  }

  lemma NoneIsLeast(pool: set<NodeId>)
    ensures LeastPart(pool, 0, {})
  {
  }

  /** The ranked nodes with known capabilities, in order, while the budget lasts. */
  method DrainRanked(caps: Capabilities, self: NodeId, ranked: seq<GossipRoute>, budget: int)
    returns (result: Capabilities)
    requires budget > 0
    ensures result.Keys == Drain(caps.Keys, self, ranked, budget) && Within(result, caps)
    ensures |result| <= budget
  {
    result := map[];
    var i := 0;
    while i < |ranked| && |result| < budget
      invariant 0 <= i <= |ranked| && |result| <= budget
      invariant result.Keys == Drain(caps.Keys, self, ranked[..i], budget) && Within(result, caps)
    {
      var target := ranked[i].target;
      DrainStep(caps.Keys, self, ranked, budget, i);
      assert |result| == |result.Keys|;
      if target != self && target in caps && target !in result {
        result := Put(result, target, caps[target]);
      }
      i := i + 1;
    }
    DrainStops(caps.Keys, self, ranked, budget, i, result.Keys);
  }

  /** The other known nodes, in whatever order the map yields them. */
  method Remaining(caps: Capabilities, self: NodeId, taken: Capabilities) returns (remaining: seq<NodeId>)
    ensures Distinct(remaining)
    ensures forall n :: n in remaining <==> n in caps.Keys - {self} - taken.Keys
  {
    remaining := [];
    var todo := caps.Keys;
    while todo != {}
      invariant todo <= caps.Keys
      invariant Distinct(remaining)
      invariant forall n :: n in remaining <==> n in caps.Keys - {self} - taken.Keys - todo
    {
      var node :| node in todo;
      if node != self && node !in taken {
        assert node !in remaining;
        remaining := remaining + [node];
      }
      todo := todo - {node};
    }
  }

  method FillSlack(caps: Capabilities, sorted: seq<NodeId>, budget: int, taken: Capabilities)
    returns (result: Capabilities)
    requires Distinct(sorted) && |taken| < budget && Within(taken, caps)
    requires forall i :: 0 <= i < |sorted| ==> sorted[i] in caps && sorted[i] !in taken
    ensures result.Keys == taken.Keys + Prefix(sorted, Min(|sorted|, budget - |taken|))
    ensures Within(result, caps)
  {
    result := taken;
    var j := 0;
    while j < |sorted| && |result| < budget
      invariant 0 <= j <= |sorted| && |result| == |taken| + j <= budget
      invariant result == Filled(caps, sorted, j, taken)
    {
      result := result[sorted[j] := caps[sorted[j]]];
      j := j + 1;
      FilledSize(caps, sorted, j, taken);
    }
    assert j == Min(|sorted|, budget - |taken|);
    FilledWithin(caps, sorted, j, taken);
  }

  function Filled(caps: Capabilities, sorted: seq<NodeId>, n: nat, taken: Capabilities): Capabilities
    requires n <= |sorted| && forall i :: 0 <= i < |sorted| ==> sorted[i] in caps
  {
    if n == 0 then taken else Filled(caps, sorted, n - 1, taken)[sorted[n - 1] := caps[sorted[n - 1]]]
  }

  lemma {:induction false} FilledWithin(caps: Capabilities, sorted: seq<NodeId>, n: nat, taken: Capabilities)
    requires n <= |sorted| && Within(taken, caps)
    requires forall i :: 0 <= i < |sorted| ==> sorted[i] in caps
    ensures Within(Filled(caps, sorted, n, taken), caps)
    ensures Filled(caps, sorted, n, taken).Keys == taken.Keys + Prefix(sorted, n)
  {
    if n > 0 {
      FilledWithin(caps, sorted, n - 1, taken);
      PutWithin(Filled(caps, sorted, n - 1, taken), caps, sorted[n - 1]);
    }
  }

  lemma PutWithin(part: Capabilities, caps: Capabilities, k: NodeId)
    requires Within(part, caps) && k in caps
    ensures Within(part[k := caps[k]], caps)
  {
  }

  lemma FilledSize(caps: Capabilities, sorted: seq<NodeId>, n: nat, taken: Capabilities)
    requires n <= |sorted| && Distinct(sorted) && Within(taken, caps)
    requires forall i :: 0 <= i < |sorted| ==> sorted[i] in caps && sorted[i] !in taken
    ensures |Filled(caps, sorted, n, taken)| == |taken| + n
  {
    var r := Filled(caps, sorted, n, taken);
    FilledWithin(caps, sorted, n, taken);
    PrefixSize(sorted, n, taken.Keys);
    assert |taken.Keys + Prefix(sorted, n)| == |taken.Keys| + |Prefix(sorted, n)|;
    assert |r| == |r.Keys| && |taken| == |taken.Keys|;
  }

  lemma {:induction false} PrefixSize(sorted: seq<NodeId>, n: nat, others: set<NodeId>)
    requires n <= |sorted| && Distinct(sorted)
    requires forall i :: 0 <= i < |sorted| ==> sorted[i] !in others
    ensures |Prefix(sorted, n)| == n && Prefix(sorted, n) !! others
  {
    if n > 0 {
      PrefixSize(sorted, n - 1, others);
      PrefixFresh(sorted, n - 1, n - 1);
    }
  }

  /** The first `n` names of a listing. */
  function Prefix(sorted: seq<NodeId>, n: nat): set<NodeId>
    requires n <= |sorted|
  {
    if n == 0 then {} else Prefix(sorted, n - 1) + {sorted[n - 1]}
  }

  lemma {:induction false} PrefixIs(sorted: seq<NodeId>, n: nat)
    requires n <= |sorted|
    ensures forall x :: x in Prefix(sorted, n) <==> x in sorted[..n]
  {
    if n > 0 {
      PrefixIs(sorted, n - 1);
      assert sorted[..n] == sorted[..n - 1] + [sorted[n - 1]];
    }
  }

  lemma {:induction false} PrefixFresh(sorted: seq<NodeId>, n: nat, j: nat)
    requires n <= j < |sorted| && Distinct(sorted)
    ensures sorted[j] !in Prefix(sorted, n)
  {
    if n > 0 {
      PrefixFresh(sorted, n - 1, j);
    }
  }

  lemma DrainStep(known: set<NodeId>, self: NodeId, ranked: seq<GossipRoute>, budget: int, i: nat)
    requires i < |ranked|
    ensures var s := Drain(known, self, ranked[..i], budget);
            var x := ranked[i].target;
            Drain(known, self, ranked[..i + 1], budget) == if |s| >= budget || x == self || x !in known then s else s + {x}
  {
    var front := ranked[..i + 1];
    assert front[..|front| - 1] == ranked[..i];
  }

  function Put(m: Capabilities, k: NodeId, v: CapList): (r: Capabilities)
    ensures r == m[k := v]
    ensures r.Keys == m.Keys + {k} && r[k] == v && forall n :: n in m && n != k ==> r[n] == m[n]
    ensures k !in m ==> |r| == |m| + 1
  {
    var r := m[k := v];
    assert r.Keys == m.Keys + {k};
    assert |r| == |r.Keys| && |m| == |m.Keys|;
    r
  }

  lemma {:induction false} DrainNothing(known: set<NodeId>, self: NodeId, ranked: seq<GossipRoute>, budget: int)
    requires known == {} || budget <= 0
    ensures Drain(known, self, ranked, budget) == {}
  {
    if ranked != [] {
      DrainNothing(known, self, ranked[..|ranked| - 1], budget);
    }
  }

  lemma {:induction false} DrainStops(known: set<NodeId>, self: NodeId, ranked: seq<GossipRoute>, budget: int,
                                      i: nat, s: set<NodeId>)
    requires i <= |ranked| && s == Drain(known, self, ranked[..i], budget)
    requires i == |ranked| || |s| >= budget
    ensures Drain(known, self, ranked, budget) == s
    decreases |ranked|
  {
    if i == |ranked| {
      assert ranked[..i] == ranked;
    } else {
      var front := ranked[..|ranked| - 1];
      assert front[..i] == ranked[..i];
      DrainStops(known, self, front, budget, i, s);
    }
  }

  lemma SortedStrictly(names: seq<NodeId>, sorted: seq<NodeId>)
    requires Distinct(names) && Sorted(Before, sorted) && multiset(sorted) == multiset(names)
    ensures Distinct(sorted) && forall n :: n in sorted <==> n in names
    ensures forall i, j :: 0 <= i < j < |sorted| ==> Before(sorted[i], sorted[j])
  {
    BeforeIsStrictOrder();
    DistinctRearranged(names, sorted);
  }

  lemma LeastPartOf(sorted: seq<NodeId>, pool: set<NodeId>, n: nat, part: set<NodeId>)
    requires forall a, b :: 0 <= a < b < |sorted| ==> Before(sorted[a], sorted[b])
    requires Distinct(sorted) && forall x :: x in sorted <==> x in pool
    requires part == Prefix(sorted, Min(|sorted|, n))
    ensures LeastPart(pool, n, part)
  {
    hide Prefix;
    var j := Min(|sorted|, n);
    var front, back := sorted[..j], sorted[j..];
    PrefixIs(sorted, j);
    DistinctSize(front, part);
    DistinctSize(sorted, pool);
    forall x, y | x in part && y in pool - part ensures Before(x, y) {
      var a :| 0 <= a < |front| && front[a] == x;
      OutsidePrefix(sorted, j, y);
      var b :| j <= b < |sorted| && sorted[b] == y;
      assert sorted[a] == x;
    }
  }

  lemma OutsidePrefix(sorted: seq<NodeId>, j: nat, y: NodeId)
    requires j <= |sorted| && y in sorted && y !in sorted[..j]
    ensures exists b :: j <= b < |sorted| && sorted[b] == y
  {
    var back := sorted[j..];
    assert sorted == sorted[..j] + back;
    assert y in back;
    var b :| 0 <= b < |back| && back[b] == y;
    assert sorted[j + b] == y;
  }
}
