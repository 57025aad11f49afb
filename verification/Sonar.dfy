/** Unique query names, and the set of recently seen queries. */
module Sonars {
  import opened Wrappers
  import opened Text
  import opened Routes

  datatype Uuid = Uuid(text: string)
  datatype WhoHas = WhoHas(uuid: Uuid, capability: string, origin: NodeId, maxHops: nat)
  datatype IHave = IHave(uuid: Uuid, node: NodeId, impedance: real)

  /** Query names and the time each was taken in. */
  type SeenSet = map<Uuid, int>

  // ---------------------------------------------------------------- names of queries

  function Base36Char(d: nat): (c: char)
    requires d < 36
    ensures c != ':'
  {
    if d < 10 then '0' + (d as char) else 'a' + ((d - 10) as char)
  }

  /** `strconv.FormatUint` in base 36. */
  function Base36(n: nat): (s: string)
    ensures s != "" && ':' !in s
  {
    if n < 36 then [Base36Char(n)] else Base36(n / 36) + [Base36Char(n % 36)]
  }

  lemma {:induction false} Base36Injective(m: nat, n: nat)
    requires Base36(m) == Base36(n)
    ensures m == n
  {
    var s, t := Base36(m), Base36(n);
    assert s[|s| - 1] == Base36Char(m % 36) && t[|t| - 1] == Base36Char(n % 36);
    assert m % 36 == n % 36;
    if m >= 36 && n >= 36 {
      assert s[..|s| - 1] == Base36(m / 36) && t[..|t| - 1] == Base36(n / 36);
      Base36Injective(m / 36, n / 36);
    } else {
      assert m < 36 ==> |s| == 1;
      assert n < 36 ==> |t| == 1;
      assert m >= 36 ==> |s| > 1;
      assert n >= 36 ==> |t| > 1;
    }
  }

  /** Digits and then lower-case letters, the last one for the remainder. */
  lemma Base36Is(n: nat, d: nat)
    requires n > 0 && d < 36
    ensures Base36(36 * n + d) == Base36(n) + Base36(d) && |Base36(d)| == 1
    ensures Base36(0) == "0" && Base36(9) == "9" && Base36(10) == "a" && Base36(35) == "z" && Base36(36) == "10"
  {
    assert (36 * n + d) / 36 == n && (36 * n + d) % 36 == d;
    assert Base36(36) == Base36(1) + [Base36Char(0)];
  }

  function QueryName(node: NodeId, count: nat): Uuid
  {
    Uuid(node.name + ":" + Base36(count))
  }

  lemma ColonAt(a: string, x: string)
    requires ':' !in x
    ensures (a + ":" + x)[|a|] == ':'
    ensures forall k :: |a| < k < |a + ":" + x| ==> (a + ":" + x)[k] != ':'
  {
    var s := a + ":" + x;
    forall k | |a| < k < |s| ensures s[k] != ':' {
      assert s[k] == x[k - |a| - 1] && s[k] in x;
    }
  }

  /** A text is split in only one way at its last colon. */
  lemma LastColon(a: string, x: string, b: string, y: string)
    requires a + ":" + x == b + ":" + y && ':' !in x && ':' !in y
    ensures a == b && x == y
  {
    var s := a + ":" + x;
    ColonAt(a, x);
    ColonAt(b, y);
    assert |a| == |b|;
    assert a == s[..|a|] && b == s[..|b|];
    assert x == s[|a| + 1..] && y == s[|b| + 1..];
  }

  /** Two queries share a name only if they are the same query of the same node, whatever the node names are. */
  lemma QueryNameUnique(a: NodeId, m: nat, b: NodeId, n: nat)
    requires QueryName(a, m) == QueryName(b, n)
    ensures a == b && m == n
  {
    LastColon(a.name, Base36(m), b.name, Base36(n));
    Base36Injective(m, n);
  }

  // ---------------------------------------------------------------- the seen set

  predicate Remembers(seen: SeenSet, u: Uuid, now: int, ttl: int)
  {
    u in seen && now - seen[u] <= ttl
  }

  function Swept(seen: SeenSet, cutoff: int): SeenSet
  {
    map u | u in seen && seen[u] > cutoff :: seen[u]
  }

  /** The seen set after one query was offered to it. */
  function Offered(seen: SeenSet, u: Uuid, now: int, ttl: int): SeenSet
  {
    if Remembers(seen, u, now, ttl) then seen else Swept(seen, now - ttl)[u := now]
  }

  class Sonar {
    const nodeId: NodeId
    const seenTTL: int
    var seen: SeenSet
    var uuidCounter: nat

    constructor (nodeId: NodeId, seenTTL: int)
      ensures this.nodeId == nodeId && this.seenTTL == seenTTL && seen == map[] && uuidCounter == 0
    {
      this.nodeId, this.seenTTL := nodeId, seenTTL;
      seen, uuidCounter := map[], 0;
    }

    /** Whether a query is remembered; one that has outlived its time is forgotten on the way. */
    method ContainsSeen(u: Uuid, now: int) returns (known: bool)
      modifies this`seen
      ensures known == Remembers(old(seen), u, now, seenTTL)
      ensures seen == if known then old(seen) else old(seen) - {u}
    {
      if u !in seen {
        assert seen - {u} == seen;
        return false;
      }
      if now - seen[u] > seenTTL {
        seen := seen - {u};
        return false;
      }
      return true;
    }

    /** Sweeps out what has outlived its time and records a query. */
    method AddSeen(u: Uuid, now: int)
      modifies this`seen
      ensures seen == Swept(old(seen), now - seenTTL)[u := now]
    {
      var cutoff := now - seenTTL;
      var todo := seen.Keys;
      while todo != {}
        invariant todo <= seen.Keys <= old(seen.Keys)
        invariant forall k :: k in seen <==> k in old(seen) && (k in todo || old(seen)[k] > cutoff)
        invariant forall k :: k in seen ==> seen[k] == old(seen)[k]
      {
        var k :| k in todo;
        if seen[k] <= cutoff {
          seen := seen - {k};
        }
        todo := todo - {k};
      }
      assert seen == Swept(old(seen), cutoff);
      seen := seen[u := now];
    }

    /** Answers and records a query; `offered` and `impedance` come from the manifest. */
    method ProcessWhoHas(frame: WhoHas, offered: set<string>, impedance: real, now: int)
      returns (resp: Option<IHave>, firstSeen: bool)
      modifies this`seen
      ensures firstSeen == !Remembers(old(seen), frame.uuid, now, seenTTL)
      ensures seen == Offered(old(seen), frame.uuid, now, seenTTL)
      ensures resp.Some? <==> firstSeen && frame.capability in offered
      ensures resp.Some? ==> resp.value == IHave(frame.uuid, nodeId, impedance)
    {
      var known := ContainsSeen(frame.uuid, now);
      if !known {
        AddSeen(frame.uuid, now);
        assert seen == Offered(old(seen), frame.uuid, now, seenTTL);
      }
      if known {
        return None, false;
      }
      if frame.capability !in offered {
        return None, true;
      }
      return Some(IHave(frame.uuid, nodeId, impedance)), true;
    }

    method ShouldForward(frame: WhoHas, now: int) returns (forward: bool)
      modifies this`seen
      ensures forward <==>
              frame.origin != nodeId && frame.maxHops > 0 && !Remembers(old(seen), frame.uuid, now, seenTTL)
      ensures seen == if frame.origin == nodeId || frame.maxHops == 0 then old(seen)
                      else Offered(old(seen), frame.uuid, now, seenTTL)
    {
      if frame.origin == nodeId {
        return false;
      }
      if frame.maxHops == 0 {
        return false;
      }
      var known := ContainsSeen(frame.uuid, now);
      if known {
        return false;
      }
      AddSeen(frame.uuid, now);
      assert seen == Offered(old(seen), frame.uuid, now, seenTTL);
      return true;
    }

    /** A query with a name this node has not used before. */
    method CreateWhoHas(capability: string, maxHops: nat) returns (frame: WhoHas)
      modifies this`uuidCounter
      ensures uuidCounter == old(uuidCounter) + 1
      ensures frame == WhoHas(QueryName(nodeId, uuidCounter), capability, nodeId, maxHops)
      ensures frame.uuid.text == nodeId.name + ":" + Base36(old(uuidCounter) + 1)
      ensures forall i :: 0 <= i <= old(uuidCounter) ==> frame.uuid != QueryName(nodeId, i)
    {
      uuidCounter := uuidCounter + 1;
      frame := WhoHas(QueryName(nodeId, uuidCounter), capability, nodeId, maxHops);
      forall i | 0 <= i <= old(uuidCounter) ensures frame.uuid != QueryName(nodeId, i) {
        if frame.uuid == QueryName(nodeId, i) {
          QueryNameUnique(nodeId, uuidCounter, nodeId, i);
        }
      }
    }
  }

  // ---------------------------------------------------------------- whole histories

  /** One query offered to a node at some time. */
  datatype Query = Query(uuid: Uuid, now: int)

  /** The seen set after a history of queries, starting from nothing. */
  function SeenAfter(history: seq<Query>, ttl: int): SeenSet
  {
    if history == [] then map[]
    else
      var last := history[|history| - 1];
      Offered(SeenAfter(history[..|history| - 1], ttl), last.uuid, last.now, ttl)
  }

  ghost predicate ClockRuns(history: seq<Query>)
  {
    forall i, j :: 0 <= i < j < |history| ==> history[i].now <= history[j].now
  }

  /** The verdict on the query at position `i`: first seen, to be answered and forwarded. */
  predicate FirstSeen(history: seq<Query>, ttl: int, i: nat)
    requires i < |history|
  {
    !Remembers(SeenAfter(history[..i], ttl), history[i].uuid, history[i].now, ttl)
  }

  lemma SeenStep(history: seq<Query>, ttl: int, i: nat)
    requires i < |history|
    ensures SeenAfter(history[..i + 1], ttl) ==
            Offered(SeenAfter(history[..i], ttl), history[i].uuid, history[i].now, ttl)
  {
    assert history[..i + 1][..i] == history[..i];
  }

  /** `i` is the last position before `j` at which the query's name was first seen. */
  ghost predicate LastAdmission(history: seq<Query>, ttl: int, i: nat, j: nat)
    requires i < j <= |history|
  {
    && FirstSeen(history, ttl, i)
    && forall k :: i < k < j && history[k].uuid == history[i].uuid ==> !FirstSeen(history, ttl, k)
  }

  /** Something first seen between `i` and `j` swept the query of position `i` out. */
  ghost predicate SweptBetween(history: seq<Query>, ttl: int, i: nat, j: nat)
    requires i < j <= |history|
  {
    exists k :: i < k < j && FirstSeen(history, ttl, k) && history[k].now - history[i].now >= ttl
  }

  /** How one more query bears on a name held since `since`. */
  lemma OfferedHolds(seen: SeenSet, u: Uuid, since: int, q: Query, ttl: int)
    requires u in seen ==> seen[u] == since
    requires q.uuid == u ==> Remembers(seen, u, q.now, ttl)
    ensures var seen' := Offered(seen, q.uuid, q.now, ttl);
            && (u in seen' <==> u in seen && (Remembers(seen, q.uuid, q.now, ttl) || q.now - since < ttl))
            && (u in seen' ==> seen'[u] == since)
  {
  }

  lemma SweptStep(history: seq<Query>, ttl: int, i: nat, k: nat)
    requires i < k < |history|
    ensures SweptBetween(history, ttl, i, k + 1) <==>
            SweptBetween(history, ttl, i, k) || (FirstSeen(history, ttl, k) && history[k].now - history[i].now >= ttl)
  {
    hide FirstSeen;
  }

  /** Until a query is swept out, the seen set holds the time of its last admission. */
  lemma {:induction false} HeldSince(history: seq<Query>, ttl: int, i: nat, j: nat)
    requires i < j <= |history| && LastAdmission(history, ttl, i, j)
    ensures var seen, u := SeenAfter(history[..j], ttl), history[i].uuid;
            && (u in seen <==> !SweptBetween(history, ttl, i, j))
            && (u in seen ==> seen[u] == history[i].now)
    decreases j
  {
    hide SeenAfter, Offered, SweptBetween, Remembers;
    var u, k := history[i].uuid, j - 1;
    SeenStep(history, ttl, k);
    if k == i {
      Admitted(SeenAfter(history[..i], ttl), u, history[i].now, ttl);
      NotSweptYet(history, ttl, i);
    } else {
      assert LastAdmission(history, ttl, i, k);
      HeldSince(history, ttl, i, k);
      OfferedHolds(SeenAfter(history[..k], ttl), u, history[i].now, history[k], ttl);
      SweptStep(history, ttl, i, k);
    }
  }

  lemma NotSweptYet(history: seq<Query>, ttl: int, i: nat)
    requires i < |history|
    ensures !SweptBetween(history, ttl, i, i + 1)
  {
  }

  lemma Admitted(seen: SeenSet, u: Uuid, now: int, ttl: int)
    requires !Remembers(seen, u, now, ttl)
    ensures u in Offered(seen, u, now, ttl) && Offered(seen, u, now, ttl)[u] == now
  {
  }

  /**
   Exactly when a repeated query counts as first seen again: its time has run out, or
   something else that was first seen at the end of its time swept it out.
   */
  lemma ReadmittedExactly(history: seq<Query>, ttl: int, i: nat, j: nat)
    requires i < j < |history| && history[j].uuid == history[i].uuid
    requires LastAdmission(history, ttl, i, j)
    ensures FirstSeen(history, ttl, j) <==>
            history[j].now - history[i].now > ttl || SweptBetween(history, ttl, i, j)
  {
    HeldSince(history, ttl, i, j);
  }

  lemma {:induction false} LatestAdmission(history: seq<Query>, ttl: int, i: nat, j: nat) returns (last: nat)
    requires i < j <= |history| && FirstSeen(history, ttl, i)
    ensures i <= last < j && history[last].uuid == history[i].uuid && LastAdmission(history, ttl, last, j)
    decreases j
  {
    if j == i + 1 {
      last := i;
    } else if FirstSeen(history, ttl, j - 1) && history[j - 1].uuid == history[i].uuid {
      last := j - 1;
    } else {
      last := LatestAdmission(history, ttl, i, j - 1);
    }
  }

  /** Under a clock that does not run backwards, a node takes the same query in at most once per lifetime. */
  lemma FirstSeenSpaced(history: seq<Query>, ttl: int, i: nat, j: nat)
    requires ClockRuns(history) && i < j < |history| && history[j].uuid == history[i].uuid
    requires FirstSeen(history, ttl, i) && FirstSeen(history, ttl, j)
    ensures history[j].now - history[i].now >= ttl
  {
    var last := LatestAdmission(history, ttl, i, j);
    ReadmittedExactly(history, ttl, last, j);
    if SweptBetween(history, ttl, last, j) {
      var k :| last < k < j && FirstSeen(history, ttl, k) && history[k].now - history[last].now >= ttl;
    }
  }
}
