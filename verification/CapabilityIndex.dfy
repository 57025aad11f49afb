/** The capability index: which node offers which capability at which impedance. */
module CapabilityIndexes {
  // Two nested maps index the same relation, one by capability and one by namespace
  // and capability. The class invariant says that both are exact inverses of the
  // per-node lists, with no empty buckets left behind.

  import opened Wrappers
  import opened Ordering
  import opened Text
  import opened Routes

  datatype Cap = Cap(text: string)
  datatype Ns = Ns(text: string)
  datatype Pair = Pair(cap: Cap, node: NodeId)
  datatype NodeCapEntry = NodeCapEntry(node: NodeId, impedance: real)

  /** Which node offers which capability, and at what impedance. */
  type Offers = map<Pair, real>
  type ByCap = map<Cap, map<NodeId, real>>
  type ByNs = map<Ns, ByCap>

  // ---------------------------------------------------------------- namespaces

  /** The part before the first colon; the empty namespace when there is none. */
  function Namespace(c: Cap): Ns
  {
    var i := IndexOf(c.text, ':');
    if i >= 0 then Ns(c.text[..i]) else Ns("")
  }

  /** The namespace a wildcard prefix is confined to, if it has a colon. */
  function PrefixNamespace(prefix: string): Option<Ns>
  {
    var i := IndexOf(prefix, ':');
    if i >= 0 then Some(Ns(prefix[..i])) else None
  }

  /** Namespaces in terms of the text: what stands in front of the first colon. */
  lemma NamespaceIs(a: string, b: string)
    requires ':' !in a
    ensures Namespace(Cap(a + ":" + b)) == Ns(a) && PrefixNamespace(a + ":" + b) == Some(Ns(a))
    ensures Namespace(Cap(a)) == Ns("") && PrefixNamespace(a) == None
  {
    IndexAfter(a, ':', b);
    assert a + [':'] + b == a + ":" + b;
    assert (a + ":" + b)[..|a|] == a;
  }

  /** A capability that extends a prefix with a colon lies in the namespace of the prefix. */
  lemma PrefixConfines(c: Cap, prefix: string)
    requires prefix <= c.text && PrefixNamespace(prefix).Some?
    ensures Namespace(c) == PrefixNamespace(prefix).value
  {
    var i := IndexOf(prefix, ':');
    assert c.text[..i] == prefix[..i];
    IndexOfIs(c.text, ':', i);
  }

  // ---------------------------------------------------------------- nested maps

  /** `byCap` holds exactly the offers, and no capability without a node. */
  ghost predicate Indexes(byCap: ByCap, offers: Offers)
  {
    && (forall c, n :: c in byCap && n in byCap[c] ==> Pair(c, n) in offers && offers[Pair(c, n)] == byCap[c][n])
    && (forall p :: p in offers ==> p.cap in byCap && p.node in byCap[p.cap])
    && (forall c :: c in byCap ==> byCap[c] != map[])
  }

  function InNs(offers: Offers, ns: Ns): Offers
  {
    map p | p in offers && Namespace(p.cap) == ns :: offers[p]
  }

  /** `byNs` holds exactly the offers, each in the bucket of its namespace, and no empty bucket. */
  ghost predicate IndexesByNs(byNs: ByNs, offers: Offers)
  {
    && (forall ns :: ns in byNs ==> byNs[ns] != map[] && Indexes(byNs[ns], InNs(offers, ns)))
    && (forall p :: p in offers ==> Namespace(p.cap) in byNs)
  }

  function Put(byCap: ByCap, c: Cap, n: NodeId, impedance: real): ByCap
  {
    byCap[c := (if c in byCap then byCap[c] else map[])[n := impedance]]
  }

  /** Removes a node from a capability, and the capability with its last node. */
  function Drop(byCap: ByCap, c: Cap, n: NodeId): ByCap
  {
    if c !in byCap then byCap
    else
      var nodes := byCap[c] - {n};
      if nodes == map[] then byCap - {c} else byCap[c := nodes]
  }

  function BucketOf(byNs: ByNs, ns: Ns): ByCap
  {
    if ns in byNs then byNs[ns] else map[]
  }

  function PutNs(byNs: ByNs, c: Cap, n: NodeId, impedance: real): ByNs
  {
    byNs[Namespace(c) := Put(BucketOf(byNs, Namespace(c)), c, n, impedance)]
  }

  function DropNs(byNs: ByNs, c: Cap, n: NodeId): ByNs
  {
    if Namespace(c) !in byNs then byNs
    else
      var bucket := Drop(byNs[Namespace(c)], c, n);
      if bucket == map[] then byNs - {Namespace(c)} else byNs[Namespace(c) := bucket]
  }

  lemma PutIndexes(byCap: ByCap, offers: Offers, c: Cap, n: NodeId, impedance: real)
    requires Indexes(byCap, offers)
    ensures Indexes(Put(byCap, c, n, impedance), offers[Pair(c, n) := impedance])
  {
    var byCap', offers' := Put(byCap, c, n, impedance), offers[Pair(c, n) := impedance];
    PutCells(byCap, c, n, impedance);
    hide Put;
    forall d, m | d in byCap' && m in byCap'[d] ensures Pair(d, m) in offers' && offers'[Pair(d, m)] == byCap'[d][m] {
    }
    forall p | p in offers' ensures p.cap in byCap' && p.node in byCap'[p.cap] {
    }
  }

  /** Putting an offer changes that one cell, and leaves no bucket empty. */
  lemma PutCells(byCap: ByCap, c: Cap, n: NodeId, impedance: real)
    requires forall d :: d in byCap ==> byCap[d] != map[]
    ensures var r := Put(byCap, c, n, impedance);
            && c in r && n in r[c] && r[c][n] == impedance
            && (forall d, m :: (d, m) != (c, n) ==>
                  ((d in r && m in r[d]) <==> (d in byCap && m in byCap[d])) &&
                  (d in r && m in r[d] ==> r[d][m] == byCap[d][m]))
            && (forall d :: d in r ==> r[d] != map[])
            && (forall d :: d in byCap ==> d in r)
  {
    var r := Put(byCap, c, n, impedance);
    assert n in r[c];
    assert r[c] != map[];
  }

  lemma DropIndexes(byCap: ByCap, offers: Offers, c: Cap, n: NodeId)
    requires Indexes(byCap, offers)
    ensures Indexes(Drop(byCap, c, n), offers - {Pair(c, n)})
  {
    var byCap', offers' := Drop(byCap, c, n), offers - {Pair(c, n)};
    if c in byCap {
      var nodes := byCap[c] - {n};
      forall p | p in offers' ensures p.cap in byCap' && p.node in byCap'[p.cap] {
        if p.cap == c {
          assert p.node in nodes;
        }
      }
    }
  }

  lemma EmptyIndexes(byCap: ByCap, offers: Offers)
    requires Indexes(byCap, offers)
    ensures byCap == map[] <==> offers == map[]
  {
    if byCap == map[] {
      assert offers.Keys == {};
    } else {
      NotEmpty(byCap);
      var c :| c in byCap;
      NotEmpty(byCap[c]);
      var n :| n in byCap[c];
      assert Pair(c, n) in offers;
    }
  }

  lemma NotEmpty<K, V>(m: map<K, V>)
    requires m != map[]
    ensures exists k :: k in m
  {
    assert m.Keys != {};
  }

  lemma NothingInNs(byNs: ByNs, offers: Offers, ns: Ns)
    requires IndexesByNs(byNs, offers)
    ensures Indexes(BucketOf(byNs, ns), InNs(offers, ns))
  {
    if ns !in byNs {
      assert InNs(offers, ns).Keys == {};
    }
  }

  lemma InNsPut(offers: Offers, c: Cap, n: NodeId, impedance: real, ns: Ns)
    ensures InNs(offers[Pair(c, n) := impedance], ns) ==
            if ns == Namespace(c) then InNs(offers, ns)[Pair(c, n) := impedance] else InNs(offers, ns)
  {
    hide Namespace;
  }

  lemma InNsDrop(offers: Offers, c: Cap, n: NodeId, ns: Ns)
    ensures InNs(offers - {Pair(c, n)}, ns) ==
            if ns == Namespace(c) then InNs(offers, ns) - {Pair(c, n)} else InNs(offers, ns)
  {
    hide Namespace;
  }

  lemma BucketAt(byNs: ByNs, offers: Offers, ns: Ns)
    requires IndexesByNs(byNs, offers) && ns in byNs
    ensures byNs[ns] != map[] && Indexes(byNs[ns], InNs(offers, ns))
  {
  }

  lemma PutNsIndexes(byNs: ByNs, offers: Offers, c: Cap, n: NodeId, impedance: real)
    requires IndexesByNs(byNs, offers)
    ensures IndexesByNs(PutNs(byNs, c, n, impedance), offers[Pair(c, n) := impedance])
  {
    hide Indexes, Put, InNs, Namespace, BucketOf;
    var home := Namespace(c);
    var byNs', offers' := PutNs(byNs, c, n, impedance), offers[Pair(c, n) := impedance];
    NothingInNs(byNs, offers, home);
    PutIndexes(BucketOf(byNs, home), InNs(offers, home), c, n, impedance);
    PutHas(BucketOf(byNs, home), c, n, impedance);
    forall ns | ns in byNs' ensures byNs'[ns] != map[] && Indexes(byNs'[ns], InNs(offers', ns)) {
      InNsPut(offers, c, n, impedance, ns);
      if ns != home {
        BucketAt(byNs, offers, ns);
      }
    }
  }

  lemma PutHas(byCap: ByCap, c: Cap, n: NodeId, impedance: real)
    ensures Put(byCap, c, n, impedance) != map[]
  {
    assert c in Put(byCap, c, n, impedance);
  }

  lemma DropNsIndexes(byNs: ByNs, offers: Offers, c: Cap, n: NodeId)
    requires IndexesByNs(byNs, offers)
    ensures IndexesByNs(DropNs(byNs, c, n), offers - {Pair(c, n)})
  {
    hide Indexes, Drop, InNs, Namespace, BucketOf;
    var home := Namespace(c);
    var byNs', offers' := DropNs(byNs, c, n), offers - {Pair(c, n)};
    if home in byNs {
      BucketAt(byNs, offers, home);
      DropIndexes(byNs[home], InNs(offers, home), c, n);
      InNsDrop(offers, c, n, home);
      EmptyIndexes(Drop(byNs[home], c, n), InNs(offers', home));
    }
    forall ns | ns in byNs' ensures byNs'[ns] != map[] && Indexes(byNs'[ns], InNs(offers', ns)) {
      if ns != home {
        InNsDrop(offers, c, n, ns);
        BucketAt(byNs, offers, ns);
      }
    }
    forall p | p in offers' ensures Namespace(p.cap) in byNs' {
      InNsHas(offers', p);
    }
  }

  lemma InNsHas(offers: Offers, p: Pair)
    requires p in offers
    ensures p in InNs(offers, Namespace(p.cap)) && InNs(offers, Namespace(p.cap)) != map[]
  {
    assert p in InNs(offers, Namespace(p.cap));
  }

  // ---------------------------------------------------------------- what the lists of the nodes offer

  ghost function OffersOf(byNode: map<NodeId, seq<Cap>>, impedances: map<NodeId, real>): Offers
    requires byNode.Keys == impedances.Keys
  {
    map n, c | n in byNode && c in byNode[n] :: Pair(c, n) := impedances[n]
  }

  lemma OffersIs(byNode: map<NodeId, seq<Cap>>, impedances: map<NodeId, real>, p: Pair)
    requires byNode.Keys == impedances.Keys
    ensures p in OffersOf(byNode, impedances) <==> p.node in byNode && p.cap in byNode[p.node]
    ensures p in OffersOf(byNode, impedances) ==> OffersOf(byNode, impedances)[p] == impedances[p.node]
  {
    assert p == Pair(p.cap, p.node);
  }

  /** Offers after putting the listed capabilities of one node, one by one. */
  function PutAll(offers: Offers, n: NodeId, caps: seq<Cap>, impedance: real): Offers
  {
    if caps == [] then offers
    else PutAll(offers, n, caps[..|caps| - 1], impedance)[Pair(caps[|caps| - 1], n) := impedance]
  }

  function DropAll(offers: Offers, n: NodeId, caps: seq<Cap>): Offers
  {
    if caps == [] then offers else DropAll(offers, n, caps[..|caps| - 1]) - {Pair(caps[|caps| - 1], n)}
  }

  lemma {:induction false} PutAllIs(offers: Offers, n: NodeId, caps: seq<Cap>, impedance: real, p: Pair)
    ensures var all := PutAll(offers, n, caps, impedance);
            if p.node == n && p.cap in caps then p in all && all[p] == impedance
            else (p in all <==> p in offers) && (p in offers ==> all[p] == offers[p])
  {
    if caps != [] {
      assert caps == caps[..|caps| - 1] + [caps[|caps| - 1]];
      PutAllIs(offers, n, caps[..|caps| - 1], impedance, p);
    }
  }

  lemma {:induction false} DropAllIs(offers: Offers, n: NodeId, caps: seq<Cap>, p: Pair)
    ensures var all := DropAll(offers, n, caps);
            (p in all <==> p in offers && !(p.node == n && p.cap in caps)) && (p in all ==> all[p] == offers[p])
  {
    if caps != [] {
      assert caps == caps[..|caps| - 1] + [caps[|caps| - 1]];
      DropAllIs(offers, n, caps[..|caps| - 1], p);
    }
  }

  /** Putting the whole list of a node gives the offers with that list at that impedance. */
  lemma PutNode(byNode: map<NodeId, seq<Cap>>, impedances: map<NodeId, real>, n: NodeId, caps: seq<Cap>, impedance: real)
    requires byNode.Keys == impedances.Keys
    requires n in byNode ==> byNode[n] == caps
    ensures PutAll(OffersOf(byNode, impedances), n, caps, impedance) ==
            OffersOf(byNode[n := caps], impedances[n := impedance])
  {
    hide OffersOf, PutAll;
    var put, after := PutAll(OffersOf(byNode, impedances), n, caps, impedance), OffersOf(byNode[n := caps], impedances[n := impedance]);
    forall p ensures (p in put <==> p in after) && (p in after ==> put[p] == after[p]) {
      PutAllIs(OffersOf(byNode, impedances), n, caps, impedance, p);
      OffersIs(byNode, impedances, p);
      OffersIs(byNode[n := caps], impedances[n := impedance], p);
    }
    SameMap(put, after);
  }

  lemma SameMap<K, V>(a: map<K, V>, b: map<K, V>)
    requires forall k :: (k in a <==> k in b) && (k in b ==> a[k] == b[k])
    ensures a == b
  {
  }

  lemma DropNode(byNode: map<NodeId, seq<Cap>>, impedances: map<NodeId, real>, n: NodeId)
    requires byNode.Keys == impedances.Keys && n in byNode
    ensures DropAll(OffersOf(byNode, impedances), n, byNode[n]) == OffersOf(byNode - {n}, impedances - {n})
  {
    hide OffersOf, DropAll;
    var dropped, after := DropAll(OffersOf(byNode, impedances), n, byNode[n]), OffersOf(byNode - {n}, impedances - {n});
    forall p ensures (p in dropped <==> p in after) && (p in after ==> dropped[p] == after[p]) {
      DropAllIs(OffersOf(byNode, impedances), n, byNode[n], p);
      OffersIs(byNode, impedances, p);
      OffersIs(byNode - {n}, impedances - {n}, p);
    }
    SameMap(dropped, after);
  }

  /** The indexes are determined by the lists: two valid indexes of the same offers are equal. */
  lemma IndexUnique(a: ByCap, b: ByCap, offers: Offers)
    requires Indexes(a, offers) && Indexes(b, offers)
    ensures a == b
  {
    Covered(a, b, offers);
    Covered(b, a, offers);
    forall c | c in a ensures a[c] == b[c] {
      forall n ensures n in a[c] <==> n in b[c] {
        if n in a[c] { assert Pair(c, n) in offers; }
        if n in b[c] { assert Pair(c, n) in offers; }
      }
      forall n | n in a[c] ensures a[c][n] == b[c][n] {
        assert Pair(c, n) in offers;
      }
    }
  }

  lemma Covered(a: ByCap, b: ByCap, offers: Offers)
    requires Indexes(a, offers) && Indexes(b, offers)
    ensures a.Keys <= b.Keys
  {
    forall c | c in a ensures c in b {
      NotEmpty(a[c]);
      var n :| n in a[c];
      assert Pair(c, n) in offers;
    }
  }

  lemma NsIndexUnique(a: ByNs, b: ByNs, offers: Offers)
    requires IndexesByNs(a, offers) && IndexesByNs(b, offers)
    ensures a == b
  {
    hide Indexes, IndexesByNs, InNs, Namespace;
    NsCovered(a, b, offers);
    NsCovered(b, a, offers);
    forall ns | ns in a ensures a[ns] == b[ns] {
      BucketAt(a, offers, ns);
      BucketAt(b, offers, ns);
      IndexUnique(a[ns], b[ns], InNs(offers, ns));
    }
  }

  lemma NsCovered(a: ByNs, b: ByNs, offers: Offers)
    requires IndexesByNs(a, offers) && IndexesByNs(b, offers)
    ensures a.Keys <= b.Keys
  {
    forall ns | ns in a ensures ns in b {
      EmptyIndexes(a[ns], InNs(offers, ns));
      NotEmpty(InNs(offers, ns));
      var p :| p in InNs(offers, ns);
    }
  }

  // ---------------------------------------------------------------- ingest limits

  datatype IngestLimits = IngestLimits(maxCapabilityLength: int, maxCapabilitiesPerNode: int)

  const DEFAULT_MAX_CAPABILITY_LENGTH := 256
  const DEFAULT_MAX_CAPABILITIES_PER_NODE := 256

  function Effective(l: IngestLimits): (r: IngestLimits)
    ensures r.maxCapabilityLength == if l.maxCapabilityLength > 0 then l.maxCapabilityLength else 256
    ensures r.maxCapabilitiesPerNode == if l.maxCapabilitiesPerNode > 0 then l.maxCapabilitiesPerNode else 256
  {
    IngestLimits(
      if l.maxCapabilityLength <= 0 then DEFAULT_MAX_CAPABILITY_LENGTH else l.maxCapabilityLength,
      if l.maxCapabilitiesPerNode <= 0 then DEFAULT_MAX_CAPABILITIES_PER_NODE else l.maxCapabilitiesPerNode)
  }

  /** The capabilities that are taken in: not too long, and the first so many of those. */
  function Admitted(caps: seq<Cap>, l: IngestLimits): (r: seq<Cap>)
    ensures l.maxCapabilitiesPerNode >= 0 ==> |r| <= l.maxCapabilitiesPerNode
    ensures forall i :: 0 <= i < |r| ==> |r[i].text| <= l.maxCapabilityLength && r[i] in caps
  {
    if caps == [] then []
    else
      var before := Admitted(caps[..|caps| - 1], l);
      var c := caps[|caps| - 1];
      if |before| >= l.maxCapabilitiesPerNode || |c.text| > l.maxCapabilityLength then before else before + [c]
  }

  lemma AdmittedStep(caps: seq<Cap>, l: IngestLimits, i: nat)
    requires i < |caps|
    ensures Admitted(caps[..i + 1], l) ==
            if |Admitted(caps[..i], l)| >= l.maxCapabilitiesPerNode || |caps[i].text| > l.maxCapabilityLength
            then Admitted(caps[..i], l) else Admitted(caps[..i], l) + [caps[i]]
  {
    assert caps[..i + 1][..i] == caps[..i];
  }

  /** Once the count is reached nothing more is taken in; until then the list only grows at its end. */
  lemma {:induction false} AdmittedGrows(caps: seq<Cap>, l: IngestLimits, i: nat)
    requires i <= |caps|
    ensures Admitted(caps[..i], l) <= Admitted(caps, l)
    ensures |Admitted(caps[..i], l)| >= l.maxCapabilitiesPerNode ==> Admitted(caps, l) == Admitted(caps[..i], l)
    decreases |caps| - i
  {
    if i == |caps| {
      assert caps[..i] == caps;
    } else {
      AdmittedStep(caps, l, i);
      AdmittedGrows(caps, l, i + 1);
    }
  }

  /** The capabilities that are short enough, in order. */
  function Short(caps: seq<Cap>, maxLength: int): (r: seq<Cap>)
    ensures |r| <= |caps|
  {
    if caps == [] then []
    else Short(caps[..|caps| - 1], maxLength) + if |caps[|caps| - 1].text| <= maxLength then [caps[|caps| - 1]] else []
  }

  /** Of two lists, what is short enough in each. */
  lemma {:induction false} ShortConcat(a: seq<Cap>, b: seq<Cap>, maxLength: int)
    ensures Short(a + b, maxLength) == Short(a, maxLength) + Short(b, maxLength)
  {
    if b == [] {
      assert a + b == a;
    } else {
      hide Short;
      var front, c := b[..|b| - 1], b[|b| - 1];
      ShortConcat(a, front, maxLength);
      ShortSnoc(a + front, c, maxLength);
      ShortSnoc(front, c, maxLength);
      assert front + [c] == b;
      Regroup(a, front, [c]);
      Regroup(Short(a, maxLength), Short(front, maxLength), if |c.text| <= maxLength then [c] else []);
    }
  }

  lemma Regroup(a: seq<Cap>, b: seq<Cap>, c: seq<Cap>)
    ensures (a + b) + c == a + (b + c)
  {
  }

  lemma ShortSnoc(front: seq<Cap>, c: Cap, maxLength: int)
    ensures Short(front + [c], maxLength) == Short(front, maxLength) + if |c.text| <= maxLength then [c] else []
  {
    assert (front + [c])[..|front|] == front;
  }

  /** Of one capability, that capability if it is short enough. */
  lemma ShortOne(c: Cap, maxLength: int)
    ensures Short([c], maxLength) == if |c.text| <= maxLength then [c] else []
  {
    assert [c][..0] == [];
  }

  /** What is taken in are exactly the first so many of the short enough ones. */
  lemma {:induction false} AdmittedAre(caps: seq<Cap>, l: IngestLimits)
    requires l.maxCapabilitiesPerNode > 0
    ensures var short := Short(caps, l.maxCapabilityLength);
            Admitted(caps, l) == if |short| <= l.maxCapabilitiesPerNode then short else short[..l.maxCapabilitiesPerNode]
  {
    if caps != [] {
      AdmittedAre(caps[..|caps| - 1], l);
    }
  }

  lemma {:induction false} AllShort(caps: seq<Cap>, maxLength: int)
    requires forall i :: 0 <= i < |caps| ==> |caps[i].text| <= maxLength
    ensures Short(caps, maxLength) == caps
  {
    if caps != [] {
      var front := caps[..|caps| - 1];
      AllShort(front, maxLength);
      assert caps == front + [caps[|caps| - 1]];
    }
  }

  /** A list that keeps the limits is taken in whole. */
  lemma AdmittedWhole(caps: seq<Cap>, l: IngestLimits)
    requires l.maxCapabilitiesPerNode > 0 && |caps| <= l.maxCapabilitiesPerNode
    requires forall i :: 0 <= i < |caps| ==> |caps[i].text| <= l.maxCapabilityLength
    ensures Admitted(caps, l) == caps
  {
    AdmittedAre(caps, l);
    AllShort(caps, l.maxCapabilityLength);
  }

  /** No more capabilities than the limit, none of them too long; 256 where no limit is configured. */
  ghost predicate Fitting(caps: seq<Cap>, l: IngestLimits)
  {
    && |caps| <= (if l.maxCapabilitiesPerNode > 0 then l.maxCapabilitiesPerNode else 256)
    && forall i :: 0 <= i < |caps| ==> |caps[i].text| <= if l.maxCapabilityLength > 0 then l.maxCapabilityLength else 256
  }

  /** How many capabilities pass the limits. */
  method CountAdmitted(caps: seq<Cap>, l: IngestLimits) returns (n: nat)
    ensures n == |Admitted(caps, l)|
  {
    hide Admitted;
    NothingAdmitted(l);
    assert caps[..0] == [];
    n := 0;
    var i := 0;
    while i < |caps|
      invariant 0 <= i <= |caps| && n == |Admitted(caps[..i], l)|
    {
      if n >= l.maxCapabilitiesPerNode {
        AdmittedGrows(caps, l, i);
        return;
      }
      AdmittedStep(caps, l, i);
      if |caps[i].text| <= l.maxCapabilityLength {
        n := n + 1;
      }
      i := i + 1;
    }
    assert caps[..i] == caps;
  }

  lemma NothingAdmitted(l: IngestLimits)
    ensures Admitted([], l) == []
  {
  }

  /** Whether a stored list is what the limits would let in now. */
  method SameAdmitted(existing: seq<Cap>, caps: seq<Cap>, l: IngestLimits) returns (identical: bool)
    requires |existing| == |Admitted(caps, l)|
    ensures identical <==> existing == Admitted(caps, l)
  {
    hide Admitted;
    NothingAdmitted(l);
    assert caps[..0] == [];
    var idx, i := 0, 0;
    while i < |caps|
      invariant 0 <= i <= |caps| && idx == |Admitted(caps[..i], l)| <= |existing|
      invariant existing[..idx] == Admitted(caps[..i], l)
    {
      AdmittedGrows(caps, l, i);
      if idx >= l.maxCapabilitiesPerNode {
        break;
      }
      AdmittedStep(caps, l, i);
      AdmittedGrows(caps, l, i + 1);
      if |caps[i].text| <= l.maxCapabilityLength {
        if existing[idx] != caps[i] {
          assert Admitted(caps, l)[idx] == caps[i];
          return false;
        }
        idx := idx + 1;
      }
      i := i + 1;
    }
    if i == |caps| {
      assert caps[..i] == caps;
    }
    assert existing[..idx] == existing;
    return true;
  }

  method AdmitAll(caps: seq<Cap>, l: IngestLimits) returns (admitted: seq<Cap>)
    ensures admitted == Admitted(caps, l)
  {
    hide Admitted;
    NothingAdmitted(l);
    assert caps[..0] == [];
    admitted := [];
    var i := 0;
    while i < |caps|
      invariant 0 <= i <= |caps| && admitted == Admitted(caps[..i], l)
    {
      if |admitted| >= l.maxCapabilitiesPerNode {
        AdmittedGrows(caps, l, i);
        return;
      }
      AdmittedStep(caps, l, i);
      if |caps[i].text| <= l.maxCapabilityLength {
        admitted := admitted + [caps[i]];
      }
      i := i + 1;
    }
    assert caps[..i] == caps;
  }

  // ---------------------------------------------------------------- lookups

  predicate Lighter(a: NodeCapEntry, b: NodeCapEntry)
  {
    a.impedance < b.impedance
  }

  /** The answer lists exactly the given nodes, once each, lightest first. */
  ghost predicate Ranked(entries: seq<NodeCapEntry>, nodes: map<NodeId, real>)
  {
    && Sorted(Lighter, entries) && Distinct(entries)
    && forall e :: e in entries <==> e.node in nodes && nodes[e.node] == e.impedance
  }

  /** The nodes that list a capability starting with `prefix`, each at its own impedance. */
  ghost function Offering(byNode: map<NodeId, seq<Cap>>, impedances: map<NodeId, real>, prefix: string): map<NodeId, real>
    requires byNode.Keys == impedances.Keys
  {
    map n | n in byNode && exists c :: c in byNode[n] && prefix <= c.text :: impedances[n]
  }

  /** By ascending impedance, and no node twice. */
  ghost predicate LightestFirst(entries: seq<NodeCapEntry>)
  {
    forall i, j :: 0 <= i < j < |entries| ==>
      entries[i].impedance <= entries[j].impedance && entries[i].node != entries[j].node
  }

  lemma RankedIs(entries: seq<NodeCapEntry>, nodes: map<NodeId, real>)
    requires Ranked(entries, nodes)
    ensures forall e :: e in entries <==> e.node in nodes && nodes[e.node] == e.impedance
    ensures LightestFirst(entries)
  {
    forall i, j | 0 <= i < j < |entries|
      ensures entries[i].impedance <= entries[j].impedance && entries[i].node != entries[j].node
    {
      assert entries[i] in entries && entries[j] in entries && !Lighter(entries[j], entries[i]);
    }
  }

  lemma OfferingIs(byNode: map<NodeId, seq<Cap>>, impedances: map<NodeId, real>, prefix: string)
    requires byNode.Keys == impedances.Keys
    ensures forall n :: n in Offering(byNode, impedances, prefix) <==>
              n in byNode && exists c :: c in byNode[n] && prefix <= c.text
    ensures forall n :: n in Offering(byNode, impedances, prefix) ==> Offering(byNode, impedances, prefix)[n] == impedances[n]
  {
  }

  method RankAll(nodes: map<NodeId, real>) returns (entries: seq<NodeCapEntry>)
    ensures Ranked(entries, nodes)
  {
    var listed: seq<NodeCapEntry> := [];
    var todo := nodes.Keys;
    while todo != {}
      invariant todo <= nodes.Keys && Distinct(listed)
      invariant forall e :: e in listed <==> e.node in nodes && e.node !in todo && nodes[e.node] == e.impedance
    {
      var n :| n in todo;
      assert NodeCapEntry(n, nodes[n]) !in listed;
      listed := listed + [NodeCapEntry(n, nodes[n])];
      todo := todo - {n};
    }
    entries := SortBy(Lighter, listed);
    DistinctRearranged(listed, entries);
  }

  /** `seen` holds the least impedance of every node found under the scanned capabilities that match. */
  ghost predicate LeastOf(seen: map<NodeId, real>, bucket: ByCap, prefix: string, scanned: set<Cap>)
  {
    && (forall n :: n in seen ==>
          exists c :: c in scanned && c in bucket && prefix <= c.text && n in bucket[c] && bucket[c][n] == seen[n])
    && (forall c, n :: c in scanned && c in bucket && prefix <= c.text && n in bucket[c] ==>
          n in seen && seen[n] <= bucket[c][n])
  }

  /** Keeps the least impedance of every node of both maps. */
  method KeepLeast(before: map<NodeId, real>, nodes: map<NodeId, real>) returns (seen: map<NodeId, real>)
    ensures KeptLeast(before, nodes, seen)
  {
    seen := before;
    var todo := nodes.Keys;
    while todo != {}
      invariant todo <= nodes.Keys
      invariant seen.Keys == before.Keys + (nodes.Keys - todo)
      invariant forall n :: n in seen ==>
                  (n in before && seen[n] == before[n]) || (n in nodes && seen[n] == nodes[n])
      invariant forall n :: n in before ==> seen[n] <= before[n]
      invariant forall n :: n in nodes && n !in todo ==> seen[n] <= nodes[n]
    {
      var n :| n in todo;
      if n !in seen || nodes[n] < seen[n] {
        seen := seen[n := nodes[n]];
      }
      todo := todo - {n};
    }
  }

  /** `seen` is `before` with the least impedances of `nodes` kept as well. */
  ghost predicate KeptLeast(before: map<NodeId, real>, nodes: map<NodeId, real>, seen: map<NodeId, real>)
  {
    && seen.Keys == before.Keys + nodes.Keys
    && (forall n :: n in seen ==> (n in before && seen[n] == before[n]) || (n in nodes && seen[n] == nodes[n]))
    && (forall n :: n in before ==> seen[n] <= before[n])
    && (forall n :: n in nodes ==> seen[n] <= nodes[n])
  }

  lemma LeastStep(before: map<NodeId, real>, seen: map<NodeId, real>, bucket: ByCap, prefix: string, scanned: set<Cap>, c: Cap)
    requires LeastOf(before, bucket, prefix, scanned) && c in bucket
    requires if prefix <= c.text then KeptLeast(before, bucket[c], seen) else seen == before
    ensures LeastOf(seen, bucket, prefix, scanned + {c})
  {
    hide LeastOf, KeptLeast;
    forall n | n in seen
      ensures exists d :: d in scanned + {c} && d in bucket && prefix <= d.text && n in bucket[d] && bucket[d][n] == seen[n]
    {
      LeastWitness(before, seen, bucket, prefix, scanned, c, n);
    }
    forall d, n | d in scanned + {c} && d in bucket && prefix <= d.text && n in bucket[d]
      ensures n in seen && seen[n] <= bucket[d][n]
    {
      LeastBelow(before, seen, bucket, prefix, scanned, c, d, n);
    }
    LeastOfFrom(seen, bucket, prefix, scanned + {c});
  }

  lemma LeastOfFrom(seen: map<NodeId, real>, bucket: ByCap, prefix: string, scanned: set<Cap>)
    requires forall n :: n in seen ==>
               exists c :: c in scanned && c in bucket && prefix <= c.text && n in bucket[c] && bucket[c][n] == seen[n]
    requires forall c, n :: c in scanned && c in bucket && prefix <= c.text && n in bucket[c] ==>
               n in seen && seen[n] <= bucket[c][n]
    ensures LeastOf(seen, bucket, prefix, scanned)
  {
  }

  lemma LeastWitness(before: map<NodeId, real>, seen: map<NodeId, real>, bucket: ByCap, prefix: string,
                     scanned: set<Cap>, c: Cap, n: NodeId)
    requires LeastOf(before, bucket, prefix, scanned) && c in bucket && n in seen
    requires if prefix <= c.text then KeptLeast(before, bucket[c], seen) else seen == before
    ensures exists d :: d in scanned + {c} && d in bucket && prefix <= d.text && n in bucket[d] && bucket[d][n] == seen[n]
  {
    if n in before && seen[n] == before[n] {
      var d :| d in scanned && d in bucket && prefix <= d.text && n in bucket[d] && bucket[d][n] == before[n];
      assert d in scanned + {c};
    } else {
      assert c in scanned + {c};
    }
  }

  lemma LeastBelow(before: map<NodeId, real>, seen: map<NodeId, real>, bucket: ByCap, prefix: string,
                   scanned: set<Cap>, c: Cap, d: Cap, n: NodeId)
    requires LeastOf(before, bucket, prefix, scanned) && c in bucket
    requires if prefix <= c.text then KeptLeast(before, bucket[c], seen) else seen == before
    requires d in scanned + {c} && d in bucket && prefix <= d.text && n in bucket[d]
    ensures n in seen && seen[n] <= bucket[d][n]
  {
    if d != c {
      assert d in scanned && n in before && before[n] <= bucket[d][n];
    }
  }

  /** Collects the nodes under every capability of a bucket that starts with `prefix`. */
  method Scan(bucket: ByCap, prefix: string) returns (seen: map<NodeId, real>)
    ensures LeastOf(seen, bucket, prefix, bucket.Keys)
  {
    hide LeastOf, KeptLeast;
    seen := map[];
    var todo := bucket.Keys;
    NothingScanned(bucket, prefix);
    while todo != {}
      invariant todo <= bucket.Keys
      invariant LeastOf(seen, bucket, prefix, bucket.Keys - todo)
    {
      var c :| c in todo;
      ghost var before := seen;
      if prefix <= c.text {
        seen := KeepLeast(seen, bucket[c]);
      }
      LeastStep(before, seen, bucket, prefix, bucket.Keys - todo, c);
      assert bucket.Keys - (todo - {c}) == (bucket.Keys - todo) + {c};
      todo := todo - {c};
    }
    assert bucket.Keys - todo == bucket.Keys;
  }

  lemma NothingScanned(bucket: ByCap, prefix: string)
    ensures LeastOf(map[], bucket, prefix, bucket.Keys - bucket.Keys)
  {
  }

  /**
   A scan of any index that holds at least the offers matching the prefix, and
   nothing but offers, finds exactly the nodes that list a matching capability.
   */
  lemma ScanFindsOffering(seen: map<NodeId, real>, bucket: ByCap, some: Offers, prefix: string,
                          byNode: map<NodeId, seq<Cap>>, impedances: map<NodeId, real>)
    requires byNode.Keys == impedances.Keys
    requires Indexes(bucket, some) && LeastOf(seen, bucket, prefix, bucket.Keys)
    requires forall p :: p in some ==> p in OffersOf(byNode, impedances) && some[p] == OffersOf(byNode, impedances)[p]
    requires forall p :: p in OffersOf(byNode, impedances) && prefix <= p.cap.text ==> p in some
    ensures seen == Offering(byNode, impedances, prefix)
  {
    hide OffersOf;
    var found := Offering(byNode, impedances, prefix);
    forall n | n in seen ensures n in found && found[n] == seen[n] {
      var c :| c in bucket.Keys && c in bucket && prefix <= c.text && n in bucket[c] && bucket[c][n] == seen[n];
      OffersIs(byNode, impedances, Pair(c, n));
      assert Pair(c, n) in some;
    }
    forall n | n in found ensures n in seen {
      var c :| c in byNode[n] && prefix <= c.text;
      OffersIs(byNode, impedances, Pair(c, n));
      assert Pair(c, n) in some;
    }
  }

  /** The offers of the namespace of a prefix include every offer that matches the prefix. */
  lemma NsHoldsMatches(offers: Offers, prefix: string, ns: Ns)
    requires PrefixNamespace(prefix) == Some(ns)
    ensures forall p :: p in InNs(offers, ns) ==> p in offers && InNs(offers, ns)[p] == offers[p]
    ensures forall p :: p in offers && prefix <= p.cap.text ==> p in InNs(offers, ns)
  {
    hide Namespace, PrefixNamespace;
    forall p | p in offers && prefix <= p.cap.text ensures p in InNs(offers, ns) {
      PrefixConfines(p.cap, prefix);
    }
  }

  // ---------------------------------------------------------------- the index

  class CapabilityIndex {
    var byCap: ByCap
    var byNs: ByNs
    var byNode: map<NodeId, seq<Cap>>
    var impedances: map<NodeId, real>
    var lastSeen: map<NodeId, int>
    var limits: IngestLimits

    /** The five maps agree. */
    ghost predicate Valid()
      reads this
    {
      && byNode.Keys == impedances.Keys == lastSeen.Keys
      && Indexes(byCap, Offers())
      && IndexesByNs(byNs, Offers())
    }

    ghost function Offers(): Offers
      reads this
      requires byNode.Keys == impedances.Keys
    {
      OffersOf(byNode, impedances)
    }

    constructor ()
      ensures Valid() && byNode == map[] && impedances == map[] && lastSeen == map[] && limits == IngestLimits(0, 0)
    {
      byCap, byNs, byNode, impedances, lastSeen := map[], map[], map[], map[], map[];
      limits := IngestLimits(0, 0);
    }

    /** Puts one offer into both nested maps. */
    method PutOffer(c: Cap, n: NodeId, impedance: real, ghost offers: Offers)
      requires Indexes(byCap, offers) && IndexesByNs(byNs, offers)
      modifies this`byCap, this`byNs
      ensures Indexes(byCap, offers[Pair(c, n) := impedance]) && IndexesByNs(byNs, offers[Pair(c, n) := impedance])
    {
      hide Indexes, IndexesByNs;
      PutIndexes(byCap, offers, c, n, impedance);
      PutNsIndexes(byNs, offers, c, n, impedance);
      var nodes := if c in byCap then byCap[c] else map[];
      byCap := byCap[c := nodes[n := impedance]];
      var ns := Namespace(c);
      var nsBucket: ByCap := if ns in byNs then byNs[ns] else map[];
      var nsNodes := if c in nsBucket then nsBucket[c] else map[];
      byNs := byNs[ns := nsBucket[c := nsNodes[n := impedance]]];
    }

    /** Rewrites one offer that is already in both nested maps. */
    method TouchOffer(c: Cap, n: NodeId, impedance: real, ghost offers: Offers)
      requires Indexes(byCap, offers) && IndexesByNs(byNs, offers) && Pair(c, n) in offers
      modifies this`byCap, this`byNs
      ensures Indexes(byCap, offers[Pair(c, n) := impedance]) && IndexesByNs(byNs, offers[Pair(c, n) := impedance])
    {
      hide Indexes, IndexesByNs, Namespace;
      OfferPlaces(byCap, byNs, offers, c, n);
      PutIndexes(byCap, offers, c, n, impedance);
      PutNsIndexes(byNs, offers, c, n, impedance);
      if c in byCap {
        byCap := byCap[c := byCap[c][n := impedance]];
      }
      var ns := Namespace(c);
      if ns in byNs {
        var nsBucket := byNs[ns];
        if c in nsBucket {
          byNs := byNs[ns := nsBucket[c := nsBucket[c][n := impedance]]];
        }
      }
    }

    /** Takes one offer out of both nested maps, with the buckets it empties. */
    method DropOffer(c: Cap, n: NodeId, ghost offers: Offers)
      requires Indexes(byCap, offers) && IndexesByNs(byNs, offers)
      modifies this`byCap, this`byNs
      ensures Indexes(byCap, offers - {Pair(c, n)}) && IndexesByNs(byNs, offers - {Pair(c, n)})
    {
      hide Indexes, IndexesByNs, DropNs, Drop;
      DropIndexes(byCap, offers, c, n);
      DropNsIndexes(byNs, offers, c, n);
      byCap := DropFrom(byCap, c, n);
      byNs := DropFromNs(byNs, c, n);
    }

    static method DropFrom(byCap: ByCap, c: Cap, n: NodeId) returns (r: ByCap)
      ensures r == Drop(byCap, c, n)
    {
      r := byCap;
      if c in byCap {
        var nodes := byCap[c] - {n};
        r := r[c := nodes];
        if |nodes| == 0 {
          r := r - {c};
          assert r == byCap - {c};
        }
      }
    }

    static method DropFromNs(byNs: ByNs, c: Cap, n: NodeId) returns (r: ByNs)
      ensures r == DropNs(byNs, c, n)
    {
      hide Drop, Namespace;
      r := byNs;
      var ns := Namespace(c);
      if ns in byNs {
        var nsBucket := DropFrom(byNs[ns], c, n);
        r := r[ns := nsBucket];
        if |nsBucket| == 0 {
          r := r - {ns};
          assert r == byNs - {ns};
        }
      }
    }

    /** Rewrites the impedance of everything a known node offers. */
    method TouchAll(n: NodeId, impedance: real)
      requires Valid() && n in byNode
      modifies this`byCap, this`byNs, this`impedances
      ensures Valid() && impedances == old(impedances)[n := impedance]
    {
      hide Indexes, IndexesByNs, OffersOf;
      var caps := byNode[n];
      ghost var offers := Offers();
      for i := 0 to |caps|
        invariant byNode == old(byNode) && impedances == old(impedances)
        invariant Indexes(byCap, PutAll(offers, n, caps[..i], impedance))
        invariant IndexesByNs(byNs, PutAll(offers, n, caps[..i], impedance))
      {
        PutAllStep(offers, n, caps, i, impedance);
        PutAllIs(offers, n, caps[..i], impedance, Pair(caps[i], n));
        OffersIs(byNode, impedances, Pair(caps[i], n));
        TouchOffer(caps[i], n, impedance, PutAll(offers, n, caps[..i], impedance));
      }
      assert caps[..|caps|] == caps;
      PutNode(byNode, impedances, n, caps, impedance);
      assert byNode[n := caps] == byNode;
      impedances := impedances[n := impedance];
    }

    /**
     Stores the admitted capabilities of a node at an impedance. The result is the
     same whether the list was unchanged and only touched, or purged and rebuilt.
     */
    method Update(n: NodeId, impedance: real, caps: seq<Cap>, now: int)
      requires Valid()
      modifies this`byCap, this`byNs, this`byNode, this`impedances, this`lastSeen
      ensures Valid()
      ensures byNode == old(byNode)[n := Admitted(caps, Effective(limits))]
      ensures Fitting(caps, limits) ==> byNode == old(byNode)[n := caps]
      ensures impedances == old(impedances)[n := impedance] && lastSeen == old(lastSeen)[n := now]
    {
      hide Indexes, IndexesByNs, OffersOf, Admitted;
      var l := Effective(limits);
      if Fitting(caps, limits) {
        AdmittedWhole(caps, l);
      }
      var validCapsCount := CountAdmitted(caps, l);
      if n in byNode && |byNode[n]| == validCapsCount {
        var identical := SameAdmitted(byNode[n], caps, l);
        if identical {
          TouchAll(n, impedance);
          lastSeen := lastSeen[n := now];
          assert byNode == old(byNode)[n := Admitted(caps, l)];
          return;
        }
      }
      PurgeNode(n);
      var capsCopy := AdmitAll(caps, l);
      Rebuild(n, impedance, capsCopy, now);
      PutBack(old(byNode), n, capsCopy);
      PutBack(old(impedances), n, impedance);
      PutBack(old(lastSeen), n, now);
    }

    /** Enters a node that is not in the index. */
    method Rebuild(n: NodeId, impedance: real, capsCopy: seq<Cap>, now: int)
      requires Valid() && n !in byNode
      modifies this`byCap, this`byNs, this`byNode, this`impedances, this`lastSeen
      ensures Valid()
      ensures byNode == old(byNode)[n := capsCopy]
      ensures impedances == old(impedances)[n := impedance] && lastSeen == old(lastSeen)[n := now]
    {
      hide Indexes, IndexesByNs, OffersOf;
      PutNode(byNode, impedances, n, capsCopy, impedance);
      ghost var offers := Offers();
      for i := 0 to |capsCopy|
        invariant byNode == old(byNode) && impedances == old(impedances) && lastSeen == old(lastSeen)
        invariant Indexes(byCap, PutAll(offers, n, capsCopy[..i], impedance))
        invariant IndexesByNs(byNs, PutAll(offers, n, capsCopy[..i], impedance))
      {
        PutAllStep(offers, n, capsCopy, i, impedance);
        PutOffer(capsCopy[i], n, impedance, PutAll(offers, n, capsCopy[..i], impedance));
      }
      assert capsCopy[..|capsCopy|] == capsCopy;
      impedances := impedances[n := impedance];
      lastSeen := lastSeen[n := now];
      byNode := byNode[n := capsCopy];
    }

    /** Moves the impedance and refresh time of a known node; an unknown node stays unknown. */
    method Refresh(n: NodeId, impedance: real, now: int)
      requires Valid()
      modifies this`byCap, this`byNs, this`impedances, this`lastSeen
      ensures Valid()
      ensures impedances == if n in byNode then old(impedances)[n := impedance] else old(impedances)
      ensures lastSeen == if n in byNode then old(lastSeen)[n := now] else old(lastSeen)
    {
      hide Indexes, IndexesByNs;
      if n !in byNode {
        return;
      }
      TouchAll(n, impedance);
      lastSeen := lastSeen[n := now];
    }

    /** Moves only the impedance of a known node. */
    method UpdateImpedance(n: NodeId, impedance: real)
      requires Valid()
      modifies this`byCap, this`byNs, this`impedances
      ensures Valid()
      ensures impedances == if n in byNode then old(impedances)[n := impedance] else old(impedances)
    {
      hide Indexes, IndexesByNs;
      if n !in byNode {
        return;
      }
      TouchAll(n, impedance);
    }

    /** Forgets a node. */
    method PurgeNode(n: NodeId)
      requires Valid()
      modifies this`byCap, this`byNs, this`byNode, this`impedances, this`lastSeen
      ensures Valid()
      ensures byNode == old(byNode) - {n} && impedances == old(impedances) - {n} && lastSeen == old(lastSeen) - {n}
    {
      hide Indexes, IndexesByNs, OffersOf;
      if n !in byNode {
        return;
      }
      var caps := byNode[n];
      ghost var offers := Offers();
      for i := 0 to |caps|
        invariant byNode == old(byNode) && impedances == old(impedances) && lastSeen == old(lastSeen)
        invariant Indexes(byCap, DropAll(offers, n, caps[..i])) && IndexesByNs(byNs, DropAll(offers, n, caps[..i]))
      {
        DropAllStep(offers, n, caps, i);
        DropOffer(caps[i], n, DropAll(offers, n, caps[..i]));
      }
      assert caps[..|caps|] == caps;
      DropNode(byNode, impedances, n);
      byNode := byNode - {n};
      impedances := impedances - {n};
      lastSeen := lastSeen - {n};
    }

    /** Forgets the nodes not refreshed within `maxAge`, and counts them. */
    method PurgeStale(maxAge: int, now: int) returns (purged: nat)
      requires Valid()
      modifies this`byCap, this`byNs, this`byNode, this`impedances, this`lastSeen
      ensures Valid()
      ensures var stale := set n | n in old(lastSeen) && old(lastSeen)[n] <= now - maxAge;
              && byNode == old(byNode) - stale && impedances == old(impedances) - stale
              && lastSeen == old(lastSeen) - stale && purged == |stale|
    {
      hide Valid, Distinct;
      var cutoff := now - maxAge;
      ghost var all := set n | n in lastSeen && lastSeen[n] <= cutoff;
      var stale: seq<NodeId> := CollectStale(cutoff);
      purged := 0;
      DistinctSize(stale, all);
      RemoveNone(byNode);
      RemoveNone(impedances);
      RemoveNone(lastSeen);
      for i := 0 to |stale|
        invariant Valid() && purged == i
        invariant byNode == old(byNode) - Listed(stale[..i])
        invariant impedances == old(impedances) - Listed(stale[..i])
        invariant lastSeen == old(lastSeen) - Listed(stale[..i])
      {
        ListedStep(stale, i);
        RemoveMore(old(byNode), Listed(stale[..i]), stale[i]);
        RemoveMore(old(impedances), Listed(stale[..i]), stale[i]);
        RemoveMore(old(lastSeen), Listed(stale[..i]), stale[i]);
        PurgeNode(stale[i]);
        purged := purged + 1;
      }
      assert stale[..|stale|] == stale;
      assert Listed(stale) == all;
    }

    /** The nodes that offer a capability, lightest first. */
    method Lookup(c: Cap) returns (entries: seq<NodeCapEntry>)
      requires Valid()
      ensures Ranked(entries, map n | n in byNode && c in byNode[n] :: impedances[n])
      ensures forall e :: e in entries <==> e.node in byNode && c in byNode[e.node] && impedances[e.node] == e.impedance
      ensures LightestFirst(entries)
    {
      hide IndexesByNs, OffersOf, Ranked;
      ghost var nodes := map n | n in byNode && c in byNode[n] :: impedances[n];
      forall n ensures n in nodes <==> Pair(c, n) in Offers() {
        OffersIs(byNode, impedances, Pair(c, n));
      }
      if c !in byCap {
        assert nodes.Keys == {};
        NothingRanked();
        return [];
      }
      forall n ensures n in nodes <==> n in byCap[c] {
        assert n in nodes <==> Pair(c, n) in Offers();
      }
      forall n | n in nodes ensures byCap[c][n] == nodes[n] {
        OffersIs(byNode, impedances, Pair(c, n));
      }
      assert byCap[c] == nodes;
      entries := RankAll(byCap[c]);
      RankedIs(entries, nodes);
    }

    /**
     The nodes that offer anything starting with `prefix`, once each, lightest first.
     Scanning only the bucket of the prefix's namespace finds what the full scan finds.
     */
    method LookupWildcard(prefix: string) returns (entries: seq<NodeCapEntry>)
      requires Valid()
      ensures Ranked(entries, Offering(byNode, impedances, prefix))
      ensures forall e :: e in entries <==>
                (e.node in byNode && impedances[e.node] == e.impedance && exists c :: c in byNode[e.node] && prefix <= c.text)
      ensures LightestFirst(entries)
    {
      hide Indexes, IndexesByNs, OffersOf, Ranked, LeastOf, InNs, Offering, PrefixNamespace;
      var seen: map<NodeId, real> := map[];
      var narrow := PrefixNamespace(prefix);
      if narrow.Some? {
        var ns := narrow.value;
        NothingInNs(byNs, Offers(), ns);
        NsHoldsMatches(Offers(), prefix, ns);
        if ns in byNs {
          seen := Scan(byNs[ns], prefix);
        } else {
          NothingScanned(map[], prefix);
          assert BucketOf(byNs, ns).Keys - BucketOf(byNs, ns).Keys == BucketOf(byNs, ns).Keys;
        }
        ScanFindsOffering(seen, BucketOf(byNs, ns), InNs(Offers(), ns), prefix, byNode, impedances);
      } else {
        seen := Scan(byCap, prefix);
        ScanFindsOffering(seen, byCap, Offers(), prefix, byNode, impedances);
      }
      entries := RankAll(seen);
      RankedIs(entries, seen);
      OfferingIs(byNode, impedances, prefix);
    }

    method CollectStale(cutoff: int) returns (stale: seq<NodeId>)
      ensures Distinct(stale) && forall n :: n in stale <==> n in lastSeen && lastSeen[n] <= cutoff
    {
      stale := [];
      var todo := lastSeen.Keys;
      while todo != {}
        invariant todo <= lastSeen.Keys && Distinct(stale)
        invariant forall n :: n in stale <==> n in lastSeen && lastSeen[n] <= cutoff && n !in todo
      {
        var n :| n in todo;
        if lastSeen[n] <= cutoff {
          assert n !in stale;
          stale := stale + [n];
        }
        todo := todo - {n};
      }
    }
  }

  ghost function Listed(nodes: seq<NodeId>): set<NodeId>
  {
    set n | n in nodes
  }

  lemma ListedStep(nodes: seq<NodeId>, i: nat)
    requires i < |nodes|
    ensures Listed(nodes[..i + 1]) == Listed(nodes[..i]) + {nodes[i]}
    ensures Listed(nodes[..0]) == {}
  {
    assert nodes[..i + 1] == nodes[..i] + [nodes[i]];
  }

  lemma RemoveNone<K, V>(m: map<K, V>)
    ensures m - {} == m
  {
  }

  lemma RemoveMore<K, V>(m: map<K, V>, gone: set<K>, k: K)
    ensures (m - gone) - {k} == m - (gone + {k})
  {
  }

  lemma PutBack<K, V>(m: map<K, V>, k: K, v: V)
    ensures (m - {k})[k := v] == m[k := v]
  {
  }

  lemma PutAllStep(offers: Offers, n: NodeId, caps: seq<Cap>, i: nat, impedance: real)
    requires i < |caps|
    ensures PutAll(offers, n, caps[..i + 1], impedance) ==
            PutAll(offers, n, caps[..i], impedance)[Pair(caps[i], n) := impedance]
  {
    assert caps[..i + 1][..i] == caps[..i];
  }

  lemma DropAllStep(offers: Offers, n: NodeId, caps: seq<Cap>, i: nat)
    requires i < |caps|
    ensures DropAll(offers, n, caps[..i + 1]) == DropAll(offers, n, caps[..i]) - {Pair(caps[i], n)}
  {
    assert caps[..i + 1][..i] == caps[..i];
  }

  lemma OfferPlaces(byCap: ByCap, byNs: ByNs, offers: Offers, c: Cap, n: NodeId)
    requires Indexes(byCap, offers) && IndexesByNs(byNs, offers) && Pair(c, n) in offers
    ensures c in byCap && Namespace(c) in byNs && c in byNs[Namespace(c)]
  {
    assert Pair(c, n) in InNs(offers, Namespace(c));
  }

  lemma NothingRanked()
    ensures Ranked([], map[])
  {
  }

  /**
   Any two states with the same lists and impedances have the same nested maps: there
   is nothing left for the touching path of `Update` to do differently from a rebuild.
   */
  lemma StateFromLists(byCap: ByCap, byNs: ByNs, byCap': ByCap, byNs': ByNs,
                       byNode: map<NodeId, seq<Cap>>, impedances: map<NodeId, real>)
    requires byNode.Keys == impedances.Keys
    requires Indexes(byCap, OffersOf(byNode, impedances)) && IndexesByNs(byNs, OffersOf(byNode, impedances))
    requires Indexes(byCap', OffersOf(byNode, impedances)) && IndexesByNs(byNs', OffersOf(byNode, impedances))
    ensures byCap == byCap' && byNs == byNs'
  {
    hide Indexes, IndexesByNs, OffersOf;
    IndexUnique(byCap, byCap', OffersOf(byNode, impedances));
    NsIndexUnique(byNs, byNs', OffersOf(byNode, impedances));
  }
}
