/** The flood of one WhoHas query through the mesh. */
module Floods {
  // It ends because of its hop budget alone, and within one lifetime of the seen
  // sets it is small.

  import opened Ordering
  import opened Routes
  import opened Sonars
  import opened Walks

  /** A copy of the query on its way over one link, with the hops it has left. */
  datatype Frame = Frame(from: NodeId, to: NodeId, hops: nat)

  /** `peers` without one of them. */
  function Except(peers: seq<NodeId>, n: NodeId): (r: seq<NodeId>)
    ensures |r| <= |peers|
  {
    if peers == [] then []
    else
      var rest := Except(peers[..|peers| - 1], n);
      if peers[|peers| - 1] == n then rest else rest + [peers[|peers| - 1]]
  }

  /** One copy to each of the peers. */
  function Broadcast(at: NodeId, peers: seq<NodeId>, hops: nat): (r: seq<Frame>)
    ensures |r| == |peers|
    ensures forall i :: 0 <= i < |r| ==> r[i] == Frame(at, peers[i], hops)
  {
    seq(|peers|, i requires 0 <= i < |peers| => Frame(at, peers[i], hops))
  }

  /** What a node sends on when a copy arrives: nothing, or one copy to each peer but the sender. */
  function Relays(origin: NodeId, f: Frame, first: bool, peers: seq<NodeId>): seq<Frame>
  {
    if f.to == origin || !first || f.hops == 0 then []
    else Broadcast(f.to, Except(peers, f.from), f.hops - 1)
  }

  // ---------------------------------------------------------------- the hop budget ends every flood

  /**
   A copy arrives, with whatever verdict the seen set gives and whatever peers the
   receiver has by then; or a copy is lost, as when a queue is full or a peer dies.
   */
  datatype Event = Receive(at: nat, first: bool, peers: seq<NodeId>) | Lose(at: nat)

  function Rest(flights: seq<Frame>, i: nat): (r: seq<Frame>)
    requires i < |flights|
    ensures forall f :: f in r ==> f in flights
  {
    flights[..i] + flights[i + 1..]
  }

  ghost predicate Possible(flights: seq<Frame>, e: Event, fan: nat)
  {
    e.at < |flights| && (e.Receive? ==> |e.peers| <= fan)
  }

  function Next(origin: NodeId, flights: seq<Frame>, e: Event): seq<Frame>
    requires e.at < |flights|
  {
    match e
    case Receive(i, first, peers) => Rest(flights, i) + Relays(origin, flights[i], first, peers)
    case Lose(i) => Rest(flights, i)
  }

  /** The most copies that one copy with so many hops left can ever become, itself included. */
  function Weight(hops: nat, fan: nat): (w: nat)
    ensures w >= 1
  {
    if hops == 0 then 1 else 1 + fan * Weight(hops - 1, fan)
  }

  function Load(flights: seq<Frame>, fan: nat): nat
  {
    if flights == [] then 0
    else Load(flights[..|flights| - 1], fan) + Weight(flights[|flights| - 1].hops, fan)
  }

  lemma {:induction false} LoadConcat(a: seq<Frame>, b: seq<Frame>, fan: nat)
    ensures Load(a + b, fan) == Load(a, fan) + Load(b, fan)
  {
    if b == [] {
      assert a + b == a;
    } else {
      var last := |b| - 1;
      LoadConcat(a, b[..last], fan);
      assert (a + b)[..|a + b| - 1] == a + b[..last];
    }
  }

  lemma LoadRest(flights: seq<Frame>, i: nat, fan: nat)
    requires i < |flights|
    ensures Load(flights, fan) == Load(Rest(flights, i), fan) + Weight(flights[i].hops, fan)
  {
    var f := [flights[i]];
    assert flights == flights[..i] + f + flights[i + 1..];
    LoadConcat(flights[..i] + f, flights[i + 1..], fan);
    LoadConcat(flights[..i], f, fan);
    LoadConcat(flights[..i], flights[i + 1..], fan);
    assert f[..0] == [];
    assert Load(f, fan) == Load(f[..0], fan) + Weight(flights[i].hops, fan);
  }

  lemma {:induction false} BroadcastLoad(at: NodeId, peers: seq<NodeId>, hops: nat, fan: nat)
    ensures Load(Broadcast(at, peers, hops), fan) == |peers| * Weight(hops, fan)
  {
    if peers != [] {
      var last := |peers| - 1;
      BroadcastLoad(at, peers[..last], hops, fan);
      var all := Broadcast(at, peers, hops);
      assert all[..last] == Broadcast(at, peers[..last], hops);
      assert |peers| * Weight(hops, fan) == last * Weight(hops, fan) + Weight(hops, fan);
    }
  }

  lemma FewerWeigh(k: nat, fan: nat, w: nat)
    requires k <= fan
    ensures k * w <= fan * w
  {
  }

  /** A copy outweighs everything it is relayed as. */
  lemma RelaysLighter(origin: NodeId, f: Frame, first: bool, peers: seq<NodeId>, fan: nat)
    requires |peers| <= fan
    ensures Load(Relays(origin, f, first, peers), fan) < Weight(f.hops, fan)
  {
    if f.to == origin || !first || f.hops == 0 {
    } else {
      var others := Except(peers, f.from);
      BroadcastLoad(f.to, others, f.hops - 1, fan);
      FewerWeigh(|others|, fan, Weight(f.hops - 1, fan));
    }
  }

  /** Every receipt and every loss makes the load strictly smaller, whatever the verdict. */
  lemma LoadFalls(origin: NodeId, flights: seq<Frame>, e: Event, fan: nat)
    requires Possible(flights, e, fan)
    ensures Load(Next(origin, flights, e), fan) < Load(flights, fan)
  {
    LoadRest(flights, e.at, fan);
    if e.Receive? {
      var relays := Relays(origin, flights[e.at], e.first, e.peers);
      RelaysLighter(origin, flights[e.at], e.first, e.peers, fan);
      LoadConcat(Rest(flights, e.at), relays, fan);
    }
  }

  ghost predicate IsFlood(origin: NodeId, flights: seq<Frame>, events: seq<Event>, fan: nat)
    decreases |events|
  {
    events == [] ||
    (Possible(flights, events[0], fan) && IsFlood(origin, Next(origin, flights, events[0]), events[1..], fan))
  }

  lemma {:induction false} EventsWithinLoad(origin: NodeId, flights: seq<Frame>, events: seq<Event>, fan: nat)
    requires IsFlood(origin, flights, events, fan)
    ensures |events| <= Load(flights, fan)
    decreases |events|
  {
    if events != [] {
      LoadFalls(origin, flights, events[0], fan);
      EventsWithinLoad(origin, Next(origin, flights, events[0]), events[1..], fan);
    }
  }

  /**
   A flood with a hop budget ends: whatever the links, even if they change, and whatever
   the seen sets forget, no run has more receipts than a bound fixed at the start.
   */
  lemma FloodEnds(origin: NodeId, peers: seq<NodeId>, maxHops: nat, events: seq<Event>, fan: nat)
    requires IsFlood(origin, Broadcast(origin, peers, maxHops), events, fan)
    ensures |events| <= |peers| * Weight(maxHops, fan)
  {
    BroadcastLoad(origin, peers, maxHops, fan);
    EventsWithinLoad(origin, Broadcast(origin, peers, maxHops), events, fan);
  }

  // ---------------------------------------------------------------- within one lifetime of the seen sets

  /** A fixed mesh, one query in it, and the time at which the origin sends it. */
  datatype Setting = Setting(links: Links, origin: NodeId, uuid: Uuid, ttl: int, start: int)

  /**
   The seen sets of the nodes, the copies under way, every link a copy was ever sent
   over, and for each node that took the query in, the peer its first copy came from.
   */
  datatype Wave = Wave(
    seen: map<NodeId, SeenSet>,
    flights: seq<Frame>,
    sent: seq<(NodeId, NodeId)>,
    first: map<NodeId, NodeId>)

  /** A copy arrives, a copy is lost, or a node handles some other query. */
  datatype Tick =
    | Arrive(at: nat, now: int, peers: seq<NodeId>)
    | Drop(at: nat)
    | Other(node: NodeId, uuid: Uuid, now: int)

  ghost predicate Symmetric(links: Links)
  {
    forall a, b :: (a, b) in links ==> (b, a) in links
  }

  /** `peers` lists the neighbours of a node, in the order in which its peer map yields them. */
  ghost predicate ListsPeers(links: Links, n: NodeId, peers: seq<NodeId>)
  {
    Distinct(peers) && forall p :: p in peers <==> (n, p) in links
  }

  function SeenAt(w: Wave, n: NodeId): SeenSet
  {
    if n in w.seen then w.seen[n] else map[]
  }

  function LinksOf(frames: seq<Frame>): (r: seq<(NodeId, NodeId)>)
    ensures |r| == |frames|
    ensures forall i :: 0 <= i < |r| ==> r[i] == (frames[i].from, frames[i].to)
  {
    seq(|frames|, i requires 0 <= i < |frames| => (frames[i].from, frames[i].to))
  }

  /** The tick is possible, and happens within one lifetime of the start. */
  ghost predicate Ticks(s: Setting, w: Wave, t: Tick)
  {
    match t
    case Arrive(i, now, peers) =>
      i < |w.flights| && s.start <= now < s.start + s.ttl && ListsPeers(s.links, w.flights[i].to, peers)
    case Drop(i) => i < |w.flights|
    case Other(n, u, now) => u != s.uuid && s.start <= now < s.start + s.ttl
  }

  function Verdict(s: Setting, w: Wave, n: NodeId, now: int): bool
  {
    !Remembers(SeenAt(w, n), s.uuid, now, s.ttl)
  }

  function AfterTick(s: Setting, w: Wave, t: Tick): Wave
    requires t.Other? || t.at < |w.flights|
  {
    match t
    case Arrive(i, now, peers) =>
      var f := w.flights[i];
      if f.to == s.origin then w.(flights := Rest(w.flights, i))
      else
        var first := Verdict(s, w, f.to, now);
        var relays := Relays(s.origin, f, first, peers);
        Wave(w.seen[f.to := Offered(SeenAt(w, f.to), s.uuid, now, s.ttl)],
             Next(s.origin, w.flights, Receive(i, first, peers)),
             w.sent + LinksOf(relays),
             if first then w.first[f.to := f.from] else w.first)
    case Drop(i) => w.(flights := Next(s.origin, w.flights, Lose(i)))
    case Other(n, u, now) => w.(seen := w.seen[n := Offered(SeenAt(w, n), u, now, s.ttl)])
  }

  function Launch(s: Setting, seen: map<NodeId, SeenSet>, peers: seq<NodeId>, maxHops: nat): Wave
  {
    var frames := Broadcast(s.origin, peers, maxHops);
    Wave(seen, frames, LinksOf(frames), map[])
  }

  /** The nodes that took the query in remember it. */
  ghost predicate Remembered(s: Setting, w: Wave)
  {
    forall n :: n in w.first ==> s.uuid in SeenAt(w, n) && SeenAt(w, n)[s.uuid] >= s.start
  }

  /** No link carried two copies, and only the origin and nodes that took the query in sent any, never back. */
  ghost predicate Frugal(s: Setting, w: Wave)
  {
    && Distinct(w.sent)
    && (forall l :: l in w.sent ==> l in s.links)
    && (forall l :: l in w.sent ==> l.0 == s.origin || (l.0 in w.first && w.first[l.0] != l.1))
    && (forall n :: n in w.first ==> n != s.origin && (n, w.first[n]) in s.links)
    && (forall f :: f in w.flights ==> (f.from, f.to) in s.links)
  }

  lemma {:induction false} ExceptIs(peers: seq<NodeId>, n: NodeId)
    requires Distinct(peers)
    ensures Distinct(Except(peers, n)) && forall p :: p in Except(peers, n) <==> p in peers && p != n
  {
    if peers != [] {
      var last := |peers| - 1;
      assert peers == peers[..last] + [peers[last]];
      ExceptIs(peers[..last], n);
      assert peers[last] !in peers[..last];
    }
  }

  /** What a node relays: one copy over each of its links but the one the first copy came in by. */
  lemma RelayLinks(s: Setting, f: Frame, first: bool, peers: seq<NodeId>)
    requires ListsPeers(s.links, f.to, peers)
    ensures var r := LinksOf(Relays(s.origin, f, first, peers));
            && Distinct(r)
            && (r != [] ==> first && f.to != s.origin)
            && forall l :: l in r ==> l.0 == f.to && l in s.links && l.1 != f.from
  {
    if f.to == s.origin || !first || f.hops == 0 {
    } else {
      var others := Except(peers, f.from);
      ExceptIs(peers, f.from);
      var r := LinksOf(Relays(s.origin, f, first, peers));
      assert forall i :: 0 <= i < |r| ==> r[i] == (f.to, others[i]) && others[i] in others;
    }
  }

  lemma DistinctJoin<T>(a: seq<T>, b: seq<T>)
    requires Distinct(a) && Distinct(b) && forall x :: x in a ==> x !in b
    ensures Distinct(a + b)
  {
    var s := a + b;
    forall i, j | 0 <= i < j < |s| ensures s[i] != s[j] {
      assert i < |a| ==> s[i] in a;
      assert j >= |a| ==> s[j] in b;
    }
  }

  lemma LaunchIsFrugal(s: Setting, seen: map<NodeId, SeenSet>, peers: seq<NodeId>, maxHops: nat)
    requires ListsPeers(s.links, s.origin, peers)
    ensures var w := Launch(s, seen, peers, maxHops); Frugal(s, w) && Remembered(s, w)
  {
    var w := Launch(s, seen, peers, maxHops);
    assert forall i :: 0 <= i < |w.sent| ==> w.sent[i] == (s.origin, peers[i]) && peers[i] in peers;
  }

  /** The sweep of another query does not reach a name taken in since the start. */
  lemma OfferKeeps(seen: SeenSet, u: Uuid, q: Uuid, now: int, s: Setting)
    requires s.start <= now < s.start + s.ttl
    requires u in seen && seen[u] >= s.start
    ensures var seen' := Offered(seen, q, now, s.ttl); u in seen' && seen'[u] >= s.start
  {
  }

  lemma RememberedStays(s: Setting, w: Wave, t: Tick)
    requires Ticks(s, w, t) && Remembered(s, w)
    ensures Remembered(s, AfterTick(s, w, t))
  {
    hide Next, Relays, Offered, LinksOf, Remembers, ListsPeers;
    var w' := AfterTick(s, w, t);
    forall n | n in w'.first ensures s.uuid in SeenAt(w', n) && SeenAt(w', n)[s.uuid] >= s.start {
      if t.Arrive? && w.flights[t.at].to == n && n != s.origin {
        NowRemembered(SeenAt(w, n), s.uuid, t.now, s);
        if n in w.first {
          OfferKeeps(SeenAt(w, n), s.uuid, s.uuid, t.now, s);
        }
      } else if t.Other? && t.node == n {
        OfferKeeps(SeenAt(w, n), s.uuid, t.uuid, t.now, s);
      }
    }
  }

  lemma NowRemembered(seen: SeenSet, u: Uuid, now: int, s: Setting)
    requires s.start <= now
    ensures !Remembers(seen, u, now, s.ttl) ==>
            u in Offered(seen, u, now, s.ttl) && Offered(seen, u, now, s.ttl)[u] >= s.start
  {
  }

  /** A node that took the query in does not take it in again within the lifetime. */
  lemma NotTwice(s: Setting, w: Wave, n: NodeId, now: int)
    requires Remembered(s, w) && n in w.first && s.start <= now < s.start + s.ttl
    ensures !Verdict(s, w, n, now)
  {
  }

  lemma FrugalStays(s: Setting, w: Wave, t: Tick)
    requires Symmetric(s.links) && Ticks(s, w, t) && Remembered(s, w) && Frugal(s, w)
    ensures Frugal(s, AfterTick(s, w, t))
  {
    if t.Arrive? && w.flights[t.at].to != s.origin {
      ArriveStaysFrugal(s, w, t.at, t.now, t.peers);
    }
  }

  lemma ArriveStaysFrugal(s: Setting, w: Wave, i: nat, now: int, peers: seq<NodeId>)
    requires Symmetric(s.links) && Ticks(s, w, Arrive(i, now, peers)) && Remembered(s, w) && Frugal(s, w)
    requires w.flights[i].to != s.origin
    ensures Frugal(s, AfterTick(s, w, Arrive(i, now, peers)))
  {
    hide Relays, LinksOf, Offered, Verdict, Distinct, ListsPeers, Remembered;
    var f := w.flights[i];
    var first := Verdict(s, w, f.to, now);
    var w' := AfterTick(s, w, Arrive(i, now, peers));
    var relays := Relays(s.origin, f, first, peers);
    var links := LinksOf(relays);
    RelayLinks(s, f, first, peers);
    if f.to in w.first {
      NotTwice(s, w, f.to, now);
    }
    assert forall l :: l in links ==> l !in w.sent;
    DistinctJoin(w.sent, links);
    assert (f.from, f.to) in s.links;
    forall g | g in relays ensures (g.from, g.to) in s.links {
      LinkListed(relays, g);
    }
  }

  lemma LinkListed(frames: seq<Frame>, g: Frame)
    requires g in frames
    ensures (g.from, g.to) in LinksOf(frames)
  {
    var i :| 0 <= i < |frames| && frames[i] == g;
    assert LinksOf(frames)[i] == (g.from, g.to);
  }

  ghost predicate IsWave(s: Setting, w: Wave, ticks: seq<Tick>)
    decreases |ticks|
  {
    ticks == [] || (Ticks(s, w, ticks[0]) && IsWave(s, AfterTick(s, w, ticks[0]), ticks[1..]))
  }

  function WaveAfter(s: Setting, w: Wave, ticks: seq<Tick>): Wave
    requires IsWave(s, w, ticks)
    decreases |ticks|
  {
    if ticks == [] then w else WaveAfter(s, AfterTick(s, w, ticks[0]), ticks[1..])
  }

  lemma {:induction false} WaveStaysFrugal(s: Setting, w: Wave, ticks: seq<Tick>)
    requires Symmetric(s.links) && IsWave(s, w, ticks) && Frugal(s, w) && Remembered(s, w)
    ensures Frugal(s, WaveAfter(s, w, ticks))
    decreases |ticks|
  {
    if ticks != [] {
      FrugalStays(s, w, ticks[0]);
      RememberedStays(s, w, ticks[0]);
      WaveStaysFrugal(s, AfterTick(s, w, ticks[0]), ticks[1..]);
    }
  }

  ghost function Arrows(first: map<NodeId, NodeId>): set<(NodeId, NodeId)>
  {
    set n | n in first :: (n, first[n])
  }

  lemma {:induction false} ArrowCount(first: map<NodeId, NodeId>)
    ensures |Arrows(first)| == |first|
    decreases |first|
  {
    if first == map[] {
      assert Arrows(first) == {};
    } else {
      assert first.Keys != {};
      var n :| n in first;
      var rest := first - {n};
      assert first.Keys == rest.Keys + {n};
      ArrowCount(rest);
      assert Arrows(first) == Arrows(rest) + {(n, first[n])};
    }
  }

  /** Every link in each direction is used once at most, and every node reached leaves one unused. */
  lemma FrugalIsSmall(s: Setting, w: Wave)
    requires Frugal(s, w)
    ensures |w.sent| + |w.first| <= |s.links|
  {
    var used := set l | l in w.sent;
    DistinctSize(w.sent, used);
    ArrowCount(w.first);
    var back := Arrows(w.first);
    assert used !! back;
    assert |used + back| == |used| + |back|;
    SubsetSize(used + back, s.links);
  }

  /**
   A flood that finishes within one lifetime sends at most one copy over each link in
   each direction, and one copy less for every node that takes the query in; whatever the
   order of arrivals and losses, and whatever other queries the nodes handle meanwhile.
   */
  lemma FloodIsSmall(s: Setting, seen: map<NodeId, SeenSet>, peers: seq<NodeId>, maxHops: nat, ticks: seq<Tick>)
    requires Symmetric(s.links) && ListsPeers(s.links, s.origin, peers)
    requires IsWave(s, Launch(s, seen, peers, maxHops), ticks)
    ensures var w := WaveAfter(s, Launch(s, seen, peers, maxHops), ticks);
            Distinct(w.sent) && |w.sent| + |w.first| <= |s.links|
  {
    LaunchIsFrugal(s, seen, peers, maxHops);
    WaveStaysFrugal(s, Launch(s, seen, peers, maxHops), ticks);
    FrugalIsSmall(s, WaveAfter(s, Launch(s, seen, peers, maxHops), ticks));
  }
}
