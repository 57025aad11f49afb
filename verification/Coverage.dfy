/** Which nodes a flood reaches. */
module Coverage {
  // The order in which copies arrive decides along which tree a flood spreads. The
  // trees it can end with are those that cannot be extended within the hop budget, so
  // a node is always reached exactly when all of them contain it.

  import opened Ordering
  import opened Routes
  import opened Sonars
  import opened Walks
  import opened Floods

  // ---------------------------------------------------------------- trees

  /** A node of a tree, the place of its parent, and its depth. */
  datatype Stop = Stop(node: NodeId, par: nat, dist: nat)

  ghost predicate InTree(tree: seq<Stop>, n: NodeId)
  {
    exists i :: 0 <= i < |tree| && tree[i].node == n
  }

  /** A tree of distinct nodes, grown along links from the origin to a depth of at most `maxHops + 1`. */
  ghost predicate IsTree(s: Setting, tree: seq<Stop>, maxHops: nat)
  {
    && tree != [] && tree[0] == Stop(s.origin, 0, 0)
    && (forall i, j :: 0 <= i < j < |tree| ==> tree[i].node != tree[j].node)
    && (forall i :: 1 <= i < |tree| ==> IsBranch(s, tree, i, maxHops))
  }

  ghost predicate IsBranch(s: Setting, tree: seq<Stop>, i: nat, maxHops: nat)
    requires i < |tree|
  {
    && tree[i].par < i && (tree[tree[i].par].node, tree[i].node) in s.links
    && tree[i].dist == tree[tree[i].par].dist + 1 <= maxHops + 1
  }

  /** Every node that has a hop left has all its neighbours in the tree. */
  ghost predicate Exhausted(s: Setting, tree: seq<Stop>, maxHops: nat)
  {
    forall i, n :: 0 <= i < |tree| && tree[i].dist <= maxHops && (tree[i].node, n) in s.links ==> InTree(tree, n)
  }

  // ---------------------------------------------------------------- a lossless flood spreads along a tree

  ghost predicate Reached(s: Setting, w: Wave, n: NodeId)
  {
    n == s.origin || n in w.first
  }

  ghost predicate OnTheWay(flights: seq<Frame>, from: NodeId, to: NodeId)
  {
    exists f :: f in flights && f.from == from && f.to == to
  }

  /** Only nodes that took the query in know its name. */
  ghost predicate Unknown(s: Setting, w: Wave)
  {
    forall n :: s.uuid in SeenAt(w, n) ==> n in w.first
  }

  /** The copy comes from place `i` of the tree, with the hops that its depth leaves. */
  ghost predicate SentFrom(s: Setting, tree: seq<Stop>, f: Frame, maxHops: nat, i: nat)
  {
    i < |tree| && tree[i].node == f.from && tree[i].dist + f.hops == maxHops && (f.from, f.to) in s.links
  }

  ghost predicate AllSent(s: Setting, flights: seq<Frame>, tree: seq<Stop>, maxHops: nat)
  {
    forall f :: f in flights ==> exists i :: SentFrom(s, tree, f, maxHops, i)
  }

  /** A neighbour of a node with hops left is in the tree, or a copy is on its way to it. */
  ghost predicate Closing(s: Setting, flights: seq<Frame>, tree: seq<Stop>, maxHops: nat)
  {
    forall i, n :: 0 <= i < |tree| && tree[i].dist <= maxHops && (tree[i].node, n) in s.links ==>
                     InTree(tree, n) || OnTheWay(flights, tree[i].node, n)
  }

  /** The tree is that of the nodes the flood has reached so far. */
  ghost predicate Traces(s: Setting, w: Wave, tree: seq<Stop>, maxHops: nat)
  {
    && Remembered(s, w) && Unknown(s, w) && IsTree(s, tree, maxHops)
    && (forall n :: Reached(s, w, n) <==> InTree(tree, n))
    && AllSent(s, w.flights, tree, maxHops) && Closing(s, w.flights, tree, maxHops)
  }

  lemma LaunchTraces(s: Setting, seen: map<NodeId, SeenSet>, peers: seq<NodeId>, maxHops: nat)
    requires ListsPeers(s.links, s.origin, peers) && forall n :: n in seen ==> s.uuid !in seen[n]
    ensures Traces(s, Launch(s, seen, peers, maxHops), [Stop(s.origin, 0, 0)], maxHops)
  {
    var w, tree := Launch(s, seen, peers, maxHops), [Stop(s.origin, 0, 0)];
    assert tree[0].node == s.origin;
    forall f | f in w.flights ensures exists i :: SentFrom(s, tree, f, maxHops, i) {
      var j :| 0 <= j < |peers| && f == Frame(s.origin, peers[j], maxHops);
      assert peers[j] in peers;
      assert SentFrom(s, tree, f, maxHops, 0);
    }
    forall n | (s.origin, n) in s.links ensures OnTheWay(w.flights, s.origin, n) {
      var j :| 0 <= j < |peers| && peers[j] == n;
      assert w.flights[j] in w.flights;
    }
  }

  // ---------------------------------------------------------------- one arrival

  /** The other copies stay on their way when one arrives. */
  lemma StillOnTheWay(flights: seq<Frame>, i: nat, more: seq<Frame>, from: NodeId, to: NodeId)
    requires i < |flights| && OnTheWay(flights, from, to) && flights[i].to != to
    ensures OnTheWay(Rest(flights, i) + more, from, to)
  {
    var f :| f in flights && f.from == from && f.to == to;
    var j :| 0 <= j < |flights| && flights[j] == f;
    assert f in Rest(flights, i) by {
      assert j < i ==> flights[..i][j] == f;
      assert j > i ==> flights[i + 1..][j - i - 1] == f;
    }
  }

  lemma SeenSame(s: Setting, w: Wave, n: NodeId, now: int)
    requires !Verdict(s, w, n, now)
    ensures Offered(SeenAt(w, n), s.uuid, now, s.ttl) == SeenAt(w, n)
  {
  }

  /** A copy for a node that was reached before changes nothing but its own going. */
  lemma AgainTraces(s: Setting, w: Wave, k: nat, now: int, peers: seq<NodeId>, tree: seq<Stop>, maxHops: nat)
    requires Ticks(s, w, Arrive(k, now, peers)) && Traces(s, w, tree, maxHops) && InTree(tree, w.flights[k].to)
    ensures Traces(s, AfterTick(s, w, Arrive(k, now, peers)), tree, maxHops)
    ensures AfterTick(s, w, Arrive(k, now, peers)).flights == Rest(w.flights, k)
  {
    hide ListsPeers, Offered, LinksOf, IsTree, SentFrom, Remembered, InTree;
    var f, w' := w.flights[k], AfterTick(s, w, Arrive(k, now, peers));
    RememberedStays(s, w, Arrive(k, now, peers));
    assert Reached(s, w, f.to);
    if f.to != s.origin {
      NotTwice(s, w, f.to, now);
      SeenSame(s, w, f.to, now);
    }
    assert w'.first == w.first && w'.flights == Rest(w.flights, k) + [] == Rest(w.flights, k);
    forall i, n | 0 <= i < |tree| && tree[i].dist <= maxHops && (tree[i].node, n) in s.links && !InTree(tree, n)
      ensures OnTheWay(w'.flights, tree[i].node, n)
    {
      StillOnTheWay(w.flights, k, [], tree[i].node, n);
    }
  }

  lemma OtherTraces(s: Setting, w: Wave, t: Tick, tree: seq<Stop>, maxHops: nat)
    requires Ticks(s, w, t) && t.Other? && Traces(s, w, tree, maxHops)
    ensures Traces(s, AfterTick(s, w, t), tree, maxHops)
  {
    hide IsTree, AllSent, Closing, InTree;
    RememberedStays(s, w, t);
    var w' := AfterTick(s, w, t);
    forall n | s.uuid in SeenAt(w', n) ensures n in w'.first {
      assert s.uuid in SeenAt(w, n);
    }
  }

  /** A node that first hears of the query relays it to every neighbour but the sender, if hops are left. */
  lemma FirstArrival(s: Setting, w: Wave, k: nat, now: int, peers: seq<NodeId>)
    requires Ticks(s, w, Arrive(k, now, peers)) && Unknown(s, w) && !Reached(s, w, w.flights[k].to)
    ensures var w', f := AfterTick(s, w, Arrive(k, now, peers)), w.flights[k];
            && w'.first == w.first[f.to := f.from]
            && w'.flights == Rest(w.flights, k) + Relays(s.origin, f, true, peers)
            && Unknown(s, w')
  {
    hide Relays, ListsPeers;
    var f := w.flights[k];
    assert s.uuid !in SeenAt(w, f.to);
    assert Verdict(s, w, f.to, now);
  }

  lemma RelaysTo(s: Setting, f: Frame, peers: seq<NodeId>, to: NodeId)
    requires ListsPeers(s.links, f.to, peers) && f.to != s.origin && f.hops > 0
    requires (f.to, to) in s.links && to != f.from
    ensures OnTheWay(Relays(s.origin, f, true, peers), f.to, to)
  {
    ExceptIs(peers, f.from);
    var others := Except(peers, f.from);
    var j :| 0 <= j < |others| && others[j] == to;
    assert Relays(s.origin, f, true, peers)[j] == Frame(f.to, to, f.hops - 1);
  }

  lemma RelayIs(s: Setting, f: Frame, peers: seq<NodeId>, g: Frame)
    requires ListsPeers(s.links, f.to, peers) && g in Relays(s.origin, f, true, peers)
    ensures g.from == f.to && f.hops == g.hops + 1 && (f.to, g.to) in s.links
  {
    ExceptIs(peers, f.from);
    var others := Except(peers, f.from);
    var j :| 0 <= j < |others| && g == Frame(f.to, others[j], f.hops - 1);
    assert others[j] in others;
  }

  lemma Longer(tree: seq<Stop>, x: Stop, n: NodeId)
    ensures InTree(tree + [x], n) <==> InTree(tree, n) || n == x.node
  {
    var more := tree + [x];
    assert more[|tree|] == x;
    if i :| 0 <= i < |tree| && tree[i].node == n {
      assert more[i].node == n;
    }
    if i :| 0 <= i < |more| && more[i].node == n {
      assert i < |tree| ==> tree[i].node == n;
    }
  }

  /** The tree grows by the node that a copy from place `i` reaches. */
  lemma TreeGrows(s: Setting, tree: seq<Stop>, f: Frame, maxHops: nat, i: nat)
    requires IsTree(s, tree, maxHops) && SentFrom(s, tree, f, maxHops, i) && !InTree(tree, f.to)
    ensures IsTree(s, tree + [Stop(f.to, i, tree[i].dist + 1)], maxHops)
  {
    var more := tree + [Stop(f.to, i, tree[i].dist + 1)];
    forall j | 1 <= j < |more| ensures IsBranch(s, more, j, maxHops) {
      if j < |tree| {
        assert IsBranch(s, tree, j, maxHops);
      }
    }
  }

  lemma SentStays(s: Setting, tree: seq<Stop>, x: Stop, f: Frame, maxHops: nat)
    requires exists i :: SentFrom(s, tree, f, maxHops, i)
    ensures exists i :: SentFrom(s, tree + [x], f, maxHops, i)
  {
    var i :| SentFrom(s, tree, f, maxHops, i);
    assert SentFrom(s, tree + [x], f, maxHops, i);
  }

  /** The copies that the new node sends, and those that were under way. */
  lemma FirstAllSent(s: Setting, w: Wave, k: nat, peers: seq<NodeId>, tree: seq<Stop>, maxHops: nat, i: nat)
    requires k < |w.flights| && ListsPeers(s.links, w.flights[k].to, peers)
    requires AllSent(s, w.flights, tree, maxHops) && SentFrom(s, tree, w.flights[k], maxHops, i)
    ensures var f := w.flights[k];
            AllSent(s, Rest(w.flights, k) + Relays(s.origin, f, true, peers), tree + [Stop(f.to, i, tree[i].dist + 1)], maxHops)
  {
    hide ListsPeers, Relays, Rest;
    var f := w.flights[k];
    var x := Stop(f.to, i, tree[i].dist + 1);
    var relays := Relays(s.origin, f, true, peers);
    forall g | g in Rest(w.flights, k) + relays ensures exists j :: SentFrom(s, tree + [x], g, maxHops, j) {
      if g in relays {
        RelayIs(s, f, peers, g);
        assert SentFrom(s, tree + [x], g, maxHops, |tree|);
      } else {
        RestOf(w.flights, k, g);
        SentStays(s, tree, x, g, maxHops);
      }
    }
  }

  lemma RestOf(flights: seq<Frame>, k: nat, g: Frame)
    requires k < |flights| && g in Rest(flights, k)
    ensures g in flights
  {
  }

  lemma FirstClosing(s: Setting, w: Wave, k: nat, peers: seq<NodeId>, tree: seq<Stop>, maxHops: nat, i: nat)
    requires k < |w.flights| && ListsPeers(s.links, w.flights[k].to, peers) && w.flights[k].to != s.origin
    requires Closing(s, w.flights, tree, maxHops) && SentFrom(s, tree, w.flights[k], maxHops, i)
    ensures var f := w.flights[k];
            Closing(s, Rest(w.flights, k) + Relays(s.origin, f, true, peers), tree + [Stop(f.to, i, tree[i].dist + 1)], maxHops)
  {
    hide ListsPeers, Relays, InTree;
    var f := w.flights[k];
    var x := Stop(f.to, i, tree[i].dist + 1);
    var relays := Relays(s.origin, f, true, peers);
    var more, flights := tree + [x], Rest(w.flights, k) + relays;
    forall j, n | 0 <= j < |more| && more[j].dist <= maxHops && (more[j].node, n) in s.links && !InTree(more, n)
      ensures OnTheWay(flights, more[j].node, n)
    {
      Longer(tree, x, n);
      if j < |tree| {
        assert OnTheWay(w.flights, tree[j].node, n);
        StillOnTheWay(w.flights, k, relays, tree[j].node, n);
      } else {
        AtPlace(tree, i);
        RelaysTo(s, f, peers, n);
        var g :| g in relays && g.from == f.to && g.to == n;
        assert g in flights;
      }
    }
  }

  lemma AtPlace(tree: seq<Stop>, i: nat)
    requires i < |tree|
    ensures InTree(tree, tree[i].node)
  {
  }

  lemma FirstTraces(s: Setting, w: Wave, k: nat, now: int, peers: seq<NodeId>, tree: seq<Stop>, maxHops: nat, i: nat)
    requires Ticks(s, w, Arrive(k, now, peers)) && Traces(s, w, tree, maxHops)
    requires i < |tree| && !InTree(tree, w.flights[k].to) && SentFrom(s, tree, w.flights[k], maxHops, i)
    ensures Traces(s, AfterTick(s, w, Arrive(k, now, peers)), tree + [Stop(w.flights[k].to, i, tree[i].dist + 1)], maxHops)
  {
    hide ListsPeers, Relays, InTree, Closing, AllSent, IsTree, SentFrom, Remembered, Rest, Unknown;
    var t, f := Arrive(k, now, peers), w.flights[k];
    var x := Stop(f.to, i, tree[i].dist + 1);
    assert !Reached(s, w, f.to);
    RememberedStays(s, w, t);
    FirstArrival(s, w, k, now, peers);
    TreeGrows(s, tree, f, maxHops, i);
    FirstAllSent(s, w, k, peers, tree, maxHops, i);
    FirstClosing(s, w, k, peers, tree, maxHops, i);
    forall n ensures Reached(s, AfterTick(s, w, t), n) <==> InTree(tree + [x], n) {
      Longer(tree, x, n);
    }
  }

  // ---------------------------------------------------------------- whole floods

  ghost predicate Lossless(ticks: seq<Tick>)
  {
    forall t :: t in ticks ==> !t.Drop?
  }

  /** A flood of a fresh query that loses nothing and is over, all within one lifetime. */
  ghost predicate Completes(s: Setting, w: Wave, ticks: seq<Tick>)
  {
    IsWave(s, w, ticks) && Lossless(ticks) && WaveAfter(s, w, ticks).flights == []
  }

  lemma {:induction false} WaveTraces(s: Setting, w: Wave, ticks: seq<Tick>, tree: seq<Stop>, maxHops: nat)
    returns (end: seq<Stop>)
    requires IsWave(s, w, ticks) && Lossless(ticks) && Traces(s, w, tree, maxHops)
    ensures Traces(s, WaveAfter(s, w, ticks), end, maxHops)
    decreases |ticks|
  {
    hide Traces, InTree, SentFrom;
    end := tree;
    if ticks != [] {
      var t := ticks[0];
      assert t in ticks;
      if t.Other? {
        OtherTraces(s, w, t, tree, maxHops);
      } else if InTree(tree, w.flights[t.at].to) {
        AgainTraces(s, w, t.at, t.now, t.peers, tree, maxHops);
      } else {
        var i := Sender(s, w, tree, maxHops, t.at);
        FirstTraces(s, w, t.at, t.now, t.peers, tree, maxHops, i);
        end := tree + [Stop(w.flights[t.at].to, i, tree[i].dist + 1)];
      }
      end := WaveTraces(s, AfterTick(s, w, t), ticks[1..], end, maxHops);
    }
  }

  lemma Sender(s: Setting, w: Wave, tree: seq<Stop>, maxHops: nat, k: nat) returns (i: nat)
    requires Traces(s, w, tree, maxHops) && k < |w.flights|
    ensures i < |tree| && SentFrom(s, tree, w.flights[k], maxHops, i)
  {
    assert w.flights[k] in w.flights;
    i :| SentFrom(s, tree, w.flights[k], maxHops, i);
  }

  /** The nodes that a completed flood has reached are those of an exhausted tree. */
  lemma FloodIsTree(s: Setting, seen: map<NodeId, SeenSet>, peers: seq<NodeId>, maxHops: nat, ticks: seq<Tick>)
    returns (tree: seq<Stop>)
    requires ListsPeers(s.links, s.origin, peers) && forall n :: n in seen ==> s.uuid !in seen[n]
    requires Completes(s, Launch(s, seen, peers, maxHops), ticks)
    ensures IsTree(s, tree, maxHops) && Exhausted(s, tree, maxHops)
    ensures forall n :: Reached(s, WaveAfter(s, Launch(s, seen, peers, maxHops), ticks), n) <==> InTree(tree, n)
  {
    hide Launch, ListsPeers;
    LaunchTraces(s, seen, peers, maxHops);
    tree := WaveTraces(s, Launch(s, seen, peers, maxHops), ticks, [Stop(s.origin, 0, 0)], maxHops);
  }

  // ---------------------------------------------------------------- every exhausted tree is that of a flood

  lemma {:induction false} SomeListing(nodes: set<NodeId>) returns (list: seq<NodeId>)
    ensures Distinct(list) && forall n :: n in list <==> n in nodes
  {
    list := [];
    if nodes != {} {
      var n :| n in nodes;
      var rest := SomeListing(nodes - {n});
      list := rest + [n];
    }
  }

  lemma SomePeers(s: Setting, n: NodeId) returns (peers: seq<NodeId>)
    ensures ListsPeers(s.links, n, peers)
  {
    var nodes := set l | l in s.links && l.0 == n :: l.1;
    peers := SomeListing(nodes);
    forall p ensures p in peers <==> (n, p) in s.links {
      if (n, p) in s.links {
        assert (n, p).1 in nodes;
      }
    }
  }

  lemma OneMore(s: Setting, w: Wave, t: Tick, more: seq<Tick>)
    requires Ticks(s, w, t) && !t.Drop? && Completes(s, AfterTick(s, w, t), more)
    ensures Completes(s, w, [t] + more) && WaveAfter(s, w, [t] + more) == WaveAfter(s, AfterTick(s, w, t), more)
  {
    hide AfterTick, Ticks;
    assert ([t] + more)[1..] == more;
  }

  /** Copies to nodes of an exhausted tree arrive without effect. */
  lemma {:induction false} Drain(s: Setting, w: Wave, tree: seq<Stop>, maxHops: nat) returns (ticks: seq<Tick>)
    requires s.ttl > 0 && Traces(s, w, tree, maxHops) && Exhausted(s, tree, maxHops)
    ensures Completes(s, w, ticks) && Traces(s, WaveAfter(s, w, ticks), tree, maxHops)
    decreases |w.flights|
  {
    hide Traces, InTree, ListsPeers, AfterTick;
    ticks := [];
    if w.flights != [] {
      var peers := SomePeers(s, w.flights[0].to);
      var t := Arrive(0, s.start, peers);
      var i := Sender(s, w, tree, maxHops, 0);
      AgainTraces(s, w, 0, s.start, peers, tree, maxHops);
      var more := Drain(s, AfterTick(s, w, t), tree, maxHops);
      OneMore(s, w, t, more);
      ticks := [t] + more;
    }
  }

  /** The copy that reaches the next node of the tree is on its way. */
  lemma NextCopy(s: Setting, w: Wave, tree: seq<Stop>, maxHops: nat, n: nat) returns (k: nat)
    requires 1 <= n < |tree| && IsTree(s, tree, maxHops) && Traces(s, w, tree[..n], maxHops)
    ensures k < |w.flights| && w.flights[k].to == tree[n].node && !InTree(tree[..n], tree[n].node)
    ensures tree[n].par < n && SentFrom(s, tree[..n], w.flights[k], maxHops, tree[n].par)
    ensures tree[..n] + [Stop(tree[n].node, tree[n].par, tree[tree[n].par].dist + 1)] == tree[..n + 1]
  {
    assert IsBranch(s, tree, n, maxHops);
    var front, p := tree[..n], tree[n].par;
    assert front[p] == tree[p] && (front[p].node, tree[n].node) in s.links;
    assert !InTree(front, tree[n].node);
    assert OnTheWay(w.flights, front[p].node, tree[n].node);
    var f :| f in w.flights && f.from == front[p].node && f.to == tree[n].node;
    k :| 0 <= k < |w.flights| && w.flights[k] == f;
    var i := Sender(s, w, front, maxHops, k);
    assert i == p;
  }

  /** Delivers the copies along the tree, and then the rest. */
  lemma {:induction false} Follow(s: Setting, w: Wave, tree: seq<Stop>, maxHops: nat, n: nat) returns (ticks: seq<Tick>)
    requires s.ttl > 0 && IsTree(s, tree, maxHops) && Exhausted(s, tree, maxHops)
    requires 1 <= n <= |tree| && Traces(s, w, tree[..n], maxHops)
    ensures Completes(s, w, ticks) && Traces(s, WaveAfter(s, w, ticks), tree, maxHops)
    decreases |tree| - n
  {
    hide Traces, InTree, ListsPeers, AfterTick, IsTree, Exhausted, SentFrom;
    if n == |tree| {
      assert tree[..n] == tree;
      ticks := Drain(s, w, tree, maxHops);
    } else {
      var k := NextCopy(s, w, tree, maxHops, n);
      var peers := SomePeers(s, w.flights[k].to);
      var t := Arrive(k, s.start, peers);
      FirstTraces(s, w, k, s.start, peers, tree[..n], maxHops, tree[n].par);
      var more := Follow(s, AfterTick(s, w, t), tree, maxHops, n + 1);
      OneMore(s, w, t, more);
      ticks := [t] + more;
    }
  }

  /** Some order of arrival makes the flood end with exactly the nodes of the tree. */
  lemma TreeIsFlood(s: Setting, seen: map<NodeId, SeenSet>, peers: seq<NodeId>, maxHops: nat, tree: seq<Stop>)
    returns (ticks: seq<Tick>)
    requires s.ttl > 0 && ListsPeers(s.links, s.origin, peers) && forall n :: n in seen ==> s.uuid !in seen[n]
    requires IsTree(s, tree, maxHops) && Exhausted(s, tree, maxHops)
    ensures Completes(s, Launch(s, seen, peers, maxHops), ticks)
    ensures forall n :: Reached(s, WaveAfter(s, Launch(s, seen, peers, maxHops), ticks), n) <==> InTree(tree, n)
  {
    hide Launch, ListsPeers, Exhausted;
    LaunchTraces(s, seen, peers, maxHops);
    assert tree[..1] == [Stop(s.origin, 0, 0)];
    ticks := Follow(s, Launch(s, seen, peers, maxHops), tree, maxHops, 1);
  }

  // ---------------------------------------------------------------- exactly which nodes are always reached

  /** Every flood that loses nothing and is over within one lifetime has reached `t`. */
  ghost predicate AlwaysReached(s: Setting, seen: map<NodeId, SeenSet>, peers: seq<NodeId>, maxHops: nat, t: NodeId)
  {
    forall ticks :: Completes(s, Launch(s, seen, peers, maxHops), ticks) ==>
                      Reached(s, WaveAfter(s, Launch(s, seen, peers, maxHops), ticks), t)
  }

  ghost predicate InEveryTree(s: Setting, maxHops: nat, t: NodeId)
  {
    forall tree :: IsTree(s, tree, maxHops) && Exhausted(s, tree, maxHops) ==> InTree(tree, t)
  }

  /**
   Whatever the order of arrival, a lossless flood reaches a node, if and only if the
   node is in every tree from the origin that the hop budget lets grow no further.
   */
  lemma FloodCoversExactly(s: Setting, seen: map<NodeId, SeenSet>, peers: seq<NodeId>, maxHops: nat, t: NodeId)
    requires s.ttl > 0 && ListsPeers(s.links, s.origin, peers) && forall n :: n in seen ==> s.uuid !in seen[n]
    ensures AlwaysReached(s, seen, peers, maxHops, t) <==> InEveryTree(s, maxHops, t)
  {
    hide Launch, ListsPeers, IsTree, Exhausted, InTree, IsWave, WaveAfter, Reached;
    if InEveryTree(s, maxHops, t) {
      forall ticks | Completes(s, Launch(s, seen, peers, maxHops), ticks)
        ensures Reached(s, WaveAfter(s, Launch(s, seen, peers, maxHops), ticks), t)
      {
        var tree := FloodIsTree(s, seen, peers, maxHops, ticks);
      }
    } else {
      var tree :| IsTree(s, tree, maxHops) && Exhausted(s, tree, maxHops) && !InTree(tree, t);
      var ticks := TreeIsFlood(s, seen, peers, maxHops, tree);
    }
  }

  // ---------------------------------------------------------------- budgets that no path can exhaust

  /** A path from the origin that visits no node twice. */
  ghost predicate SimplePath(s: Setting, q: seq<NodeId>)
  {
    IsWalk(s.links, q) && q[0] == s.origin && Distinct(q)
  }

  /** No such path is too long for the hop budget. */
  ghost predicate ShortPaths(s: Setting, maxHops: nat)
  {
    forall q :: SimplePath(s, q) ==> |q| <= maxHops + 2
  }

  lemma PathSnoc(s: Setting, q: seq<NodeId>, n: NodeId)
    requires SimplePath(s, q) && (q[|q| - 1], n) in s.links && n !in q
    ensures SimplePath(s, q + [n])
  {
    var r := q + [n];
    assert forall i, j :: 0 <= i && j == i + 1 && j < |q| ==> (q[i], q[j]) in s.links;
  }

  /** The path along a tree to one of its nodes. */
  lemma {:induction false} PathTo(s: Setting, tree: seq<Stop>, maxHops: nat, i: nat) returns (q: seq<NodeId>)
    requires IsTree(s, tree, maxHops) && i < |tree|
    ensures SimplePath(s, q) && q[|q| - 1] == tree[i].node && |q| == tree[i].dist + 1
    ensures forall n :: n in q ==> InTree(tree[..i + 1], n)
  {
    if i == 0 {
      q := [s.origin];
      assert tree[..1][0].node == s.origin;
    } else {
      assert IsBranch(s, tree, i, maxHops);
      var p := tree[i].par;
      var front := PathTo(s, tree, maxHops, p);
      hide IsWalk;
      forall n | n in front ensures n != tree[i].node && InTree(tree[..i + 1], n) {
        var j :| 0 <= j < |tree[..p + 1]| && tree[..p + 1][j].node == n;
        assert tree[..i + 1][j] == tree[j];
      }
      PathSnoc(s, front, tree[i].node);
      q := front + [tree[i].node];
      assert tree[..i + 1][i] == tree[i];
    }
  }

  /** Then an exhausted tree is closed under links. */
  lemma NothingOutside(s: Setting, tree: seq<Stop>, maxHops: nat, i: nat, n: NodeId)
    requires IsTree(s, tree, maxHops) && Exhausted(s, tree, maxHops) && ShortPaths(s, maxHops)
    requires i < |tree| && (tree[i].node, n) in s.links
    ensures InTree(tree, n)
  {
    hide IsTree, IsWalk;
    if tree[i].dist > maxHops && !InTree(tree, n) {
      var q := PathTo(s, tree, maxHops, i);
      Behind(tree, i, n);
      PathSnoc(s, q, n);
    }
  }

  lemma Behind(tree: seq<Stop>, i: nat, n: NodeId)
    requires i < |tree| && !InTree(tree, n)
    ensures !InTree(tree[..i + 1], n)
  {
    assert forall j :: 0 <= j < |tree[..i + 1]| ==> tree[..i + 1][j] == tree[j];
  }

  lemma {:induction false} ClosedAlongWalk(s: Setting, tree: seq<Stop>, maxHops: nat, p: seq<NodeId>)
    requires IsTree(s, tree, maxHops) && Exhausted(s, tree, maxHops) && ShortPaths(s, maxHops)
    requires IsWalk(s.links, p) && p[0] == s.origin
    ensures InTree(tree, p[|p| - 1])
  {
    if |p| > 1 {
      var n := |p| - 1;
      assert (p[n - 1], p[n]) in s.links;
      ClosedAlongWalk(s, tree, maxHops, p[..n]);
      var i :| 0 <= i < |tree| && tree[i].node == p[n - 1];
      NothingOutside(s, tree, maxHops, i, p[n]);
    } else {
      assert tree[0].node == s.origin;
    }
  }

  /**
   Where no path without repetitions is too long for the hop budget, a lossless flood
   reaches every node that is connected to the origin, in whatever order copies arrive.
   */
  lemma FloodReachesAll(s: Setting, seen: map<NodeId, SeenSet>, peers: seq<NodeId>, maxHops: nat, p: seq<NodeId>)
    requires s.ttl > 0 && ListsPeers(s.links, s.origin, peers) && forall n :: n in seen ==> s.uuid !in seen[n]
    requires ShortPaths(s, maxHops) && IsWalk(s.links, p) && p[0] == s.origin
    ensures AlwaysReached(s, seen, peers, maxHops, p[|p| - 1])
  {
    hide ListsPeers, ShortPaths, IsTree, Exhausted, InTree, IsWalk, AlwaysReached;
    assert p != [] by {
      WalkNotEmpty(s.links, p);
    }
    forall tree | IsTree(s, tree, maxHops) && Exhausted(s, tree, maxHops) ensures InTree(tree, p[|p| - 1]) {
      ClosedAlongWalk(s, tree, maxHops, p);
    }
    FloodCoversExactly(s, seen, peers, maxHops, p[|p| - 1]);
  }

  lemma WalkNotEmpty(links: Links, p: seq<NodeId>)
    requires IsWalk(links, p)
    ensures p != []
  {
  }

  /** In particular where there are at most two more nodes than hops. */
  lemma SmallMeshes(s: Setting, nodes: set<NodeId>, maxHops: nat)
    requires s.origin in nodes && (forall l :: l in s.links ==> l.0 in nodes && l.1 in nodes)
    requires |nodes| <= maxHops + 2
    ensures ShortPaths(s, maxHops)
  {
    forall q | SimplePath(s, q) ensures |q| <= maxHops + 2 {
      var visited := set n | n in q;
      forall n | n in visited ensures n in nodes {
        var i :| 0 <= i < |q| && q[i] == n;
        if i > 0 {
          assert (q[i - 1], q[i]) in s.links;
        }
      }
      DistinctSize(q, visited);
      SubsetSize(visited, nodes);
    }
  }

  /** And in a star of any size, wherever in it the origin is. */
  lemma Stars(s: Setting, hub: NodeId, maxHops: nat)
    requires maxHops >= 1 && forall l :: l in s.links ==> l.0 == hub || l.1 == hub
    ensures ShortPaths(s, maxHops)
  {
    hide IsWalk;
    forall q | SimplePath(s, q) ensures |q| <= 3 {
      ThroughHub(s, q, hub, 0);
      ThroughHub(s, q, hub, 2);
    }
  }

  lemma ThroughHub(s: Setting, q: seq<NodeId>, hub: NodeId, i: nat)
    requires IsWalk(s.links, q) && forall l :: l in s.links ==> l.0 == hub || l.1 == hub
    ensures i + 1 < |q| ==> q[i] == hub || q[i + 1] == hub
  {
    var j := i + 1;
    assert j < |q| ==> (q[i], q[j]) in s.links;
  }

  // ---------------------------------------------------------------- a flood that stops short

  // The origin o is linked to x and p, and p to x; beyond x lie y and, behind it, z.
  // With two hops the short path o-x-y-z would do, but the copy through p comes first.

  datatype Five = Five(o: NodeId, x: NodeId, p: NodeId, y: NodeId, z: NodeId)

  ghost predicate Different(v: Five)
  {
    Distinct([v.o, v.x, v.p, v.y, v.z])
  }

  function LinksAmong(v: Five): Links
  {
    {(v.o, v.x), (v.x, v.o), (v.o, v.p), (v.p, v.o), (v.p, v.x), (v.x, v.p), (v.x, v.y), (v.y, v.x), (v.y, v.z), (v.z, v.y)}
  }

  lemma FiveDiffer(v: Five)
    requires Different(v)
    ensures v.o != v.x && v.o != v.p && v.o != v.y && v.o != v.z && v.x != v.p && v.x != v.y && v.x != v.z
    ensures v.p != v.y && v.p != v.z && v.y != v.z
  {
    var all := [v.o, v.x, v.p, v.y, v.z];
    assert all[0] == v.o && all[1] == v.x && all[2] == v.p && all[3] == v.y && all[4] == v.z;
  }

  /** The tree of the detour: with two hops it cannot grow beyond y. */
  function Detour(v: Five): seq<Stop>
  {
    [Stop(v.o, 0, 0), Stop(v.p, 0, 1), Stop(v.x, 1, 2), Stop(v.y, 2, 3)]
  }

  lemma DetourStopsShort(v: Five, s: Setting)
    requires Different(v) && s.links == LinksAmong(v) && s.origin == v.o
    ensures IsTree(s, Detour(v), 2) && Exhausted(s, Detour(v), 2) && !InTree(Detour(v), v.z)
  {
    FiveDiffer(v);
    var tree := Detour(v);
    assert tree[0].node == v.o && tree[1].node == v.p && tree[2].node == v.x && tree[3].node == v.y;
    assert IsBranch(s, tree, 1, 2) && IsBranch(s, tree, 2, 2) && IsBranch(s, tree, 3, 2);
  }

  /**
   A flood that stops short: it loses nothing, is over at once and has a hop budget that
   the path o-x-y-z fits, and yet z is not reached.
   */
  lemma FloodStopsShort(v: Five, uuid: Uuid) returns (ticks: seq<Tick>)
    requires Different(v)
    ensures var s := Setting(LinksAmong(v), v.o, uuid, 10, 0);
            var w0 := Launch(s, map[], [v.x, v.p], 2);
            && ListsPeers(s.links, s.origin, [v.x, v.p]) && Completes(s, w0, ticks)
            && SimplePath(s, [v.o, v.x, v.y, v.z]) && !Reached(s, WaveAfter(s, w0, ticks), v.z)
  {
    hide IsTree, Exhausted, Launch, Completes, Reached;
    FiveDiffer(v);
    var s := Setting(LinksAmong(v), v.o, uuid, 10, 0);
    DetourStopsShort(v, s);
    assert ListsPeers(s.links, s.origin, [v.x, v.p]);
    ticks := TreeIsFlood(s, map[], [v.x, v.p], 2, Detour(v));
  }
}
