/** The host cache of a node, and how entries gossiped by peers are merged into it. */
module Resolvers {
  import opened Wrappers
  import opened Ordering

  datatype Host = Host(name: string)
  datatype Addr = Addr(text: string)

  datatype Record = Record(
    addresses: seq<Addr>,
    addrSet: set<Addr>,
    transport: string,
    proxyURL: string,
    expiresAt: Option<int>)

  datatype ResolverEntry = ResolverEntry(
    host: Host,
    addresses: seq<Addr>,
    transport: string,
    proxyURL: string,
    expiresAt: Option<int>)

  datatype DialTarget = DialTarget(host: Host, address: Addr, transport: string, proxyURL: string)

  type Cache = map<Host, Record>

  ghost function SetOf(addresses: seq<Addr>): set<Addr>
  {
    set a | a in addresses
  }

  predicate Expired(r: Record, now: int)
  {
    r.expiresAt.Some? && now > r.expiresAt.value
  }

  predicate Live(cache: Cache, h: Host, now: int)
  {
    h in cache && !Expired(cache[h], now)
  }

  // ---------------------------------------------------------------- merging one entry

  /** `more` behind `addresses`, leaving out what is already there. */
  function Appended(addresses: seq<Addr>, more: seq<Addr>): seq<Addr>
  {
    if more == [] then addresses
    else
      var before := Appended(addresses, more[..|more| - 1]);
      if more[|more| - 1] in before then before else before + [more[|more| - 1]]
  }

  /** Nothing is lost or moved, everything new is added, and no duplicate appears. */
  lemma {:induction false} AppendedIs(addresses: seq<Addr>, more: seq<Addr>)
    ensures addresses <= Appended(addresses, more)
    ensures forall a :: a in Appended(addresses, more) <==> a in addresses || a in more
    ensures Distinct(addresses) ==> Distinct(Appended(addresses, more))
  {
    if more != [] {
      assert more == more[..|more| - 1] + [more[|more| - 1]];
      AppendedIs(addresses, more[..|more| - 1]);
    }
  }

  /** Piece by piece: one address goes to the end unless it is there, and of more, one after the other. */
  lemma AppendedOne(addresses: seq<Addr>, a: Addr)
    ensures Appended(addresses, [a]) == if a in addresses then addresses else addresses + [a]
    ensures Appended(addresses, []) == addresses
  {
    assert [a][..0] == [];
  }

  lemma {:induction false} AppendedConcat(addresses: seq<Addr>, more: seq<Addr>, still: seq<Addr>)
    ensures Appended(addresses, more + still) == Appended(Appended(addresses, more), still)
  {
    if still == [] {
      assert more + still == more;
    } else {
      assert (more + still)[..|more + still| - 1] == more + still[..|still| - 1];
      AppendedConcat(addresses, more, still[..|still| - 1]);
    }
  }

  lemma {:induction false} AppendedNothingNew(addresses: seq<Addr>, more: seq<Addr>)
    requires forall a :: a in more ==> a in addresses
    ensures Appended(addresses, more) == addresses
  {
    if more != [] {
      assert more == more[..|more| - 1] + [more[|more| - 1]];
      AppendedNothingNew(addresses, more[..|more| - 1]);
    }
  }

  lemma AppendedStep(addresses: seq<Addr>, more: seq<Addr>, i: nat)
    requires i < |more|
    ensures Appended(addresses, more[..i + 1]) ==
            if more[i] in Appended(addresses, more[..i]) then Appended(addresses, more[..i])
            else Appended(addresses, more[..i]) + [more[i]]
  {
    assert more[..i + 1][..i] == more[..i];
  }

  /** The cache after one entry was merged into it. */
  ghost function MergedOne(cache: Cache, e: ResolverEntry): Cache
  {
    cache[e.host := Merged(if e.host in cache then Some(cache[e.host]) else None, e)]
  }

  /** A record after an entry for its host: a record that does not exist yet never expires. */
  ghost function Merged(known: Option<Record>, e: ResolverEntry): Record
  {
    match known
    case None => Record(e.addresses, SetOf(e.addresses), e.transport, e.proxyURL, None)
    case Some(r) =>
      var addresses := Appended(r.addresses, e.addresses);
      Record(addresses, SetOf(addresses),
             if r.transport == "" then e.transport else r.transport,
             if r.proxyURL == "" then e.proxyURL else r.proxyURL,
             r.expiresAt)
  }

  /** A host that was not known is taken over from the entry, for good. */
  lemma NewHost(cache: Cache, e: ResolverEntry)
    requires e.host !in cache
    ensures var r := MergedOne(cache, e)[e.host];
            && r.addresses == e.addresses && r.transport == e.transport && r.proxyURL == e.proxyURL
            && forall now :: !Expired(r, now)
    ensures forall h :: h != e.host ==> (h in MergedOne(cache, e) <==> h in cache)
                                        && (h in cache ==> MergedOne(cache, e)[h] == cache[h])
  {
  }

  /** A known host keeps its transport, its proxy and its expiry, and gains only what it lacked. */
  lemma KnownHost(cache: Cache, e: ResolverEntry)
    requires e.host in cache
    ensures var before, r := cache[e.host], MergedOne(cache, e)[e.host];
            && r.transport == (if before.transport != "" then before.transport else e.transport)
            && r.proxyURL == (if before.proxyURL != "" then before.proxyURL else e.proxyURL)
            && before.addresses <= r.addresses
            && (forall a :: a in r.addresses <==> a in before.addresses || a in e.addresses)
            && forall now :: Expired(r, now) <==> Expired(before, now)
    ensures forall h :: h != e.host ==> (h in MergedOne(cache, e) <==> h in cache)
                                        && (h in cache ==> MergedOne(cache, e)[h] == cache[h])
  {
    AppendedIs(cache[e.host].addresses, e.addresses);
  }

  ghost function MergedAll(cache: Cache, entries: seq<ResolverEntry>): Cache
  {
    if entries == [] then cache
    else MergedOne(MergedAll(cache, entries[..|entries| - 1]), entries[|entries| - 1])
  }

  lemma MergedAllStep(cache: Cache, entries: seq<ResolverEntry>, i: nat)
    requires i < |entries|
    ensures MergedAll(cache, entries[..i + 1]) == MergedOne(MergedAll(cache, entries[..i]), entries[i])
  {
    assert entries[..i + 1][..i] == entries[..i];
  }

  /** The address set of every record is the set of its addresses. */
  ghost predicate Consistent(cache: Cache)
  {
    forall h :: h in cache ==> cache[h].addrSet == SetOf(cache[h].addresses)
  }

  class Resolver {
    var cache: Cache

    ghost predicate Valid()
      reads this
    {
      Consistent(cache)
    }

    constructor ()
      ensures Valid() && cache == map[]
    {
      cache := map[];
    }

    /** Replaces whatever was known of a host. */
    method AddEntryFull(h: Host, addresses: seq<Addr>, ttl: int, transport: string, proxyURL: string, now: int)
      requires Valid()
      modifies this
      ensures Valid()
      ensures cache == old(cache)[h := Record(addresses, SetOf(addresses), transport, proxyURL,
                                              if ttl > 0 then Some(now + ttl) else None)]
      ensures forall later :: Live(cache, h, later) <==> ttl <= 0 || later <= now + ttl
    {
      var addrSet := CollectSet(addresses);
      var expiresAt: Option<int> := None;
      if ttl > 0 {
        expiresAt := Some(now + ttl);
      }
      cache := cache[h := Record(addresses, addrSet, transport, proxyURL, expiresAt)];
    }

    /** Merges the entries of a peer, one after the other. */
    method Merge(entries: seq<ResolverEntry>)
      requires Valid()
      modifies this
      ensures Valid()
      ensures cache == MergedAll(old(cache), entries)
    {
      for i := 0 to |entries|
        invariant Valid() && cache == MergedAll(old(cache), entries[..i])
      {
        MergedAllStep(old(cache), entries, i);
        var entry := entries[i];
        if entry.host !in cache {
          var addrSet := CollectSet(entry.addresses);
          cache := cache[entry.host := Record(entry.addresses, addrSet, entry.transport, entry.proxyURL, None)];
        } else {
          var rec := MergeInto(cache[entry.host], entry);
          cache := cache[entry.host := rec];
        }
      }
      assert entries[..|entries|] == entries;
    }

    /** The entries of the hosts that have not expired, in whatever order the map yields them. */
    method AllEntries(now: int) returns (entries: seq<ResolverEntry>)
      ensures ListsLive(entries, cache, now)
      ensures forall h :: Live(cache, h, now) <==> exists e :: e in entries && e.host == h
      ensures forall e :: e in entries ==>
                && e.addresses == cache[e.host].addresses && e.expiresAt == cache[e.host].expiresAt
                && e.transport == cache[e.host].transport && e.proxyURL == cache[e.host].proxyURL
    {
      entries := [];
      var todo := cache.Keys;
      while todo != {}
        invariant todo <= cache.Keys && DistinctHosts(entries)
        invariant forall e :: e in entries <==> Live(cache, e.host, now) && e.host !in todo && e == EntryOf(e.host, cache[e.host])
      {
        var h :| h in todo;
        if !Expired(cache[h], now) {
          assert forall e :: e in entries ==> e.host != h;
          entries := entries + [EntryOf(h, cache[h])];
        }
        todo := todo - {h};
      }
      forall h | Live(cache, h, now) ensures exists e :: e in entries && e.host == h {
        assert EntryOf(h, cache[h]) in entries;
      }
    }

    /** One target for every address of every host that has not expired. */
    method AllDialTargets(now: int) returns (targets: seq<DialTarget>)
      ensures ListsTargets(targets, cache, now)
      ensures forall t :: t in targets <==>
                (Live(cache, t.host, now) && t.address in cache[t.host].addresses
                 && t.transport == cache[t.host].transport && t.proxyURL == cache[t.host].proxyURL)
    {
      targets := [];
      ghost var order: seq<Host> := [];
      var todo := cache.Keys;
      while todo != {}
        invariant todo <= cache.Keys && Distinct(order)
        invariant forall h :: h in order <==> Live(cache, h, now) && h !in todo
        invariant targets == TargetsOf(cache, order)
      {
        var h :| h in todo;
        if !Expired(cache[h], now) {
          assert h !in order;
          var rec := cache[h];
          ghost var before := targets;
          for i := 0 to |rec.addresses|
            invariant targets == before + TargetsAt(h, rec)[..i]
          {
            targets := targets + [DialTarget(h, rec.addresses[i], rec.transport, rec.proxyURL)];
          }
          assert TargetsAt(h, rec)[..|rec.addresses|] == TargetsAt(h, rec);
          order := order + [h];
          assert order[..|order| - 1] + [h] == order;
        }
        todo := todo - {h};
      }
      forall t ensures t in targets <==> t.host in order && IsTarget(cache, t) {
        TargetsAre(cache, order, t);
      }
    }
  }

  method CollectSet(addresses: seq<Addr>) returns (s: set<Addr>)
    ensures s == SetOf(addresses)
  {
    s := {};
    for i := 0 to |addresses|
      invariant forall a :: a in s <==> a in addresses[..i]
    {
      s := s + {addresses[i]};
    }
    assert addresses[..|addresses|] == addresses;
  }

  /** A known record with the transport, proxy and addresses that an entry adds to it. */
  method MergeInto(r: Record, e: ResolverEntry) returns (rec: Record)
    requires r.addrSet == SetOf(r.addresses)
    ensures rec == Merged(Some(r), e)
  {
    rec := r;
    if rec.transport == "" && e.transport != "" {
      rec := rec.(transport := e.transport);
    }
    if rec.proxyURL == "" && e.proxyURL != "" {
      rec := rec.(proxyURL := e.proxyURL);
    }
    ghost var labelled := rec;
    for i := 0 to |e.addresses|
      invariant rec.addresses == Appended(r.addresses, e.addresses[..i])
      invariant rec.addrSet == SetOf(rec.addresses)
      invariant rec.transport == labelled.transport && rec.proxyURL == labelled.proxyURL && rec.expiresAt == r.expiresAt
    {
      AppendedStep(r.addresses, e.addresses, i);
      var addr := e.addresses[i];
      if addr !in rec.addrSet {
        rec := rec.(addresses := rec.addresses + [addr], addrSet := rec.addrSet + {addr});
      }
    }
    assert e.addresses[..|e.addresses|] == e.addresses;
  }

  // ---------------------------------------------------------------- listings

  function EntryOf(h: Host, r: Record): ResolverEntry
  {
    ResolverEntry(h, r.addresses, r.transport, r.proxyURL, r.expiresAt)
  }

  ghost predicate DistinctHosts(entries: seq<ResolverEntry>)
  {
    forall i, j :: 0 <= i < j < |entries| ==> entries[i].host != entries[j].host
  }

  ghost predicate ListsLive(entries: seq<ResolverEntry>, cache: Cache, now: int)
  {
    DistinctHosts(entries) && forall e :: e in entries <==> Live(cache, e.host, now) && e == EntryOf(e.host, cache[e.host])
  }

  function TargetsAt(h: Host, r: Record): (t: seq<DialTarget>)
    ensures |t| == |r.addresses|
    ensures forall i :: 0 <= i < |t| ==> t[i] == DialTarget(h, r.addresses[i], r.transport, r.proxyURL)
  {
    seq(|r.addresses|, i requires 0 <= i < |r.addresses| => DialTarget(h, r.addresses[i], r.transport, r.proxyURL))
  }

  /** An address of a known host, with the transport and the proxy of the host. */
  ghost predicate IsTarget(cache: Cache, t: DialTarget)
  {
    t.host in cache && t.address in cache[t.host].addresses
    && t.transport == cache[t.host].transport && t.proxyURL == cache[t.host].proxyURL
  }

  lemma {:induction false} TargetsAre(cache: Cache, order: seq<Host>, t: DialTarget)
    requires forall h :: h in order ==> h in cache
    ensures t in TargetsOf(cache, order) <==> t.host in order && IsTarget(cache, t)
  {
    if order != [] {
      var front, last := order[..|order| - 1], order[|order| - 1];
      assert order == front + [last];
      TargetsAre(cache, front, t);
      var at := TargetsAt(last, cache[last]);
      if t.host == last && IsTarget(cache, t) {
        var i :| 0 <= i < |cache[last].addresses| && cache[last].addresses[i] == t.address;
        assert at[i] == t;
      }
    }
  }

  function TargetsOf(cache: Cache, order: seq<Host>): seq<DialTarget>
    requires forall h :: h in order ==> h in cache
  {
    if order == [] then []
    else TargetsOf(cache, order[..|order| - 1]) + TargetsAt(order[|order| - 1], cache[order[|order| - 1]])
  }

  /** The targets of the live hosts, host by host in some order. */
  ghost predicate ListsTargets(targets: seq<DialTarget>, cache: Cache, now: int)
  {
    exists order ::
      && Distinct(order) && (forall h :: h in order ==> h in cache)
      && (forall h :: h in order <==> Live(cache, h, now))
      && targets == TargetsOf(cache, order)
  }

  // ---------------------------------------------------------------- merging is one update per host

  /** Merging entries of distinct hosts, said host by host. */
  ghost predicate HostByHost(cache: Cache, entries: seq<ResolverEntry>, after: Cache)
  {
    && (forall e :: e in entries ==>
          e.host in after && after[e.host] == Merged(if e.host in cache then Some(cache[e.host]) else None, e))
    && (forall h :: h in cache ==> h in after)
    && (forall h :: h in after && !Mentions(entries, h) ==> h in cache && after[h] == cache[h])
  }

  ghost predicate Mentions(entries: seq<ResolverEntry>, h: Host)
  {
    exists e :: e in entries && e.host == h
  }

  lemma {:induction false} MergedHostByHost(cache: Cache, entries: seq<ResolverEntry>)
    requires DistinctHosts(entries)
    ensures HostByHost(cache, entries, MergedAll(cache, entries))
  {
    hide Merged;
    if entries != [] {
      var front, last := entries[..|entries| - 1], entries[|entries| - 1];
      assert entries == front + [last];
      MergedHostByHost(cache, front);
      assert !Mentions(front, last.host);
      HostByHostStep(cache, front, last, MergedAll(cache, front));
    }
  }

  lemma MentionsOneMore(front: seq<ResolverEntry>, last: ResolverEntry, h: Host)
    ensures Mentions(front + [last], h) <==> Mentions(front, h) || h == last.host
  {
    assert forall e :: e in front + [last] <==> e in front || e == last;
  }

  lemma HostByHostStep(cache: Cache, front: seq<ResolverEntry>, last: ResolverEntry, before: Cache)
    requires HostByHost(cache, front, before) && !Mentions(front, last.host)
    ensures HostByHost(cache, front + [last], MergedOne(before, last))
  {
    hide Merged, Mentions;
    var after, all := MergedOne(before, last), front + [last];
    assert last.host in before <==> last.host in cache;
    forall e | e in all
      ensures e.host in after && after[e.host] == Merged(if e.host in cache then Some(cache[e.host]) else None, e)
    {
      if e in front {
        NotMentioned(front, last.host, e);
      } else {
        assert e == last;
      }
    }
    forall h | h in after && !Mentions(all, h) ensures h in cache && after[h] == cache[h] {
      MentionsOneMore(front, last, h);
    }
  }

  lemma NotMentioned(entries: seq<ResolverEntry>, h: Host, e: ResolverEntry)
    requires !Mentions(entries, h) && e in entries
    ensures e.host != h
  {
  }

  lemma HostByHostUnique(cache: Cache, entries: seq<ResolverEntry>, entries': seq<ResolverEntry>, a: Cache, b: Cache)
    requires forall e :: e in entries <==> e in entries'
    requires HostByHost(cache, entries, a) && HostByHost(cache, entries', b)
    ensures a == b
  {
    hide Merged;
    forall h ensures (h in a <==> h in b) && (h in a ==> a[h] == b[h]) {
      if Mentions(entries, h) {
        var e :| e in entries && e.host == h;
      } else {
        assert !Mentions(entries', h);
      }
    }
  }

  /** The order in which entries of distinct hosts arrive does not matter. */
  lemma MergeOrderFree(cache: Cache, entries: seq<ResolverEntry>, entries': seq<ResolverEntry>)
    requires DistinctHosts(entries) && DistinctHosts(entries') && forall e :: e in entries <==> e in entries'
    ensures MergedAll(cache, entries) == MergedAll(cache, entries')
  {
    MergedHostByHost(cache, entries);
    MergedHostByHost(cache, entries');
    HostByHostUnique(cache, entries, entries', MergedAll(cache, entries), MergedAll(cache, entries'));
  }

  // ---------------------------------------------------------------- merging twice

  /** The cache already holds everything an entry would add. */
  ghost predicate Absorbs(cache: Cache, e: ResolverEntry)
  {
    && e.host in cache
    && (forall a :: a in e.addresses ==> a in cache[e.host].addresses)
    && (cache[e.host].transport == "" ==> e.transport == "")
    && (cache[e.host].proxyURL == "" ==> e.proxyURL == "")
  }

  lemma MergedAbsorbs(cache: Cache, e: ResolverEntry)
    ensures Absorbs(MergedOne(cache, e), e)
  {
    if e.host in cache {
      AppendedIs(cache[e.host].addresses, e.addresses);
    }
  }

  lemma AbsorbsStays(cache: Cache, e: ResolverEntry, d: ResolverEntry)
    requires Absorbs(cache, e)
    ensures Absorbs(MergedOne(cache, d), e)
  {
    if d.host in cache {
      AppendedIs(cache[d.host].addresses, d.addresses);
    }
  }

  lemma AbsorbedChangesNothing(cache: Cache, e: ResolverEntry)
    requires Consistent(cache) && Absorbs(cache, e)
    ensures MergedOne(cache, e) == cache
  {
    AppendedNothingNew(cache[e.host].addresses, e.addresses);
  }

  lemma {:induction false} MergedAllAbsorbs(cache: Cache, entries: seq<ResolverEntry>)
    requires Consistent(cache)
    ensures Consistent(MergedAll(cache, entries))
    ensures forall e :: e in entries ==> Absorbs(MergedAll(cache, entries), e)
  {
    hide Absorbs, MergedOne;
    if entries != [] {
      var front, last := entries[..|entries| - 1], entries[|entries| - 1];
      MergedAllAbsorbs(cache, front);
      MergedConsistent(MergedAll(cache, front), last);
      forall e | e in entries ensures Absorbs(MergedAll(cache, entries), e) {
        MergedAbsorbs(MergedAll(cache, front), last);
        if e != last {
          assert entries == front + [last];
          assert e in front;
          AbsorbsStays(MergedAll(cache, front), e, last);
        }
      }
    }
  }

  lemma MergedConsistent(cache: Cache, e: ResolverEntry)
    requires Consistent(cache)
    ensures Consistent(MergedOne(cache, e))
  {
  }

  lemma {:induction false} AbsorbedAll(cache: Cache, entries: seq<ResolverEntry>)
    requires Consistent(cache) && forall e :: e in entries ==> Absorbs(cache, e)
    ensures MergedAll(cache, entries) == cache
  {
    hide Absorbs, MergedOne;
    if entries != [] {
      AbsorbedAll(cache, entries[..|entries| - 1]);
      AbsorbedChangesNothing(cache, entries[|entries| - 1]);
    }
  }

  /** Merging the same entries again changes nothing, whatever their order and repetitions. */
  lemma MergeIdempotent(cache: Cache, entries: seq<ResolverEntry>)
    requires Consistent(cache)
    ensures MergedAll(MergedAll(cache, entries), entries) == MergedAll(cache, entries)
  {
    MergedAllAbsorbs(cache, entries);
    AbsorbedAll(MergedAll(cache, entries), entries);
  }

  // ---------------------------------------------------------------- what the merged cache shows

  /**
   A merged host is shown to the node's own callers exactly when the cache did not hold
   an expired record of it: merging into an expired record does not bring it back.
   */
  lemma MergedIsLive(cache: Cache, entries: seq<ResolverEntry>, e: ResolverEntry, now: int)
    requires DistinctHosts(entries) && e in entries
    ensures Live(MergedAll(cache, entries), e.host, now) <==> e.host !in cache || Live(cache, e.host, now)
  {
    MergedHostByHost(cache, entries);
  }

  /** A fresh announcement of a host whose record has just expired stays hidden. */
  lemma ExpiredStaysHidden()
    ensures var h := Host("mds-01");
            var cache := map[h := Record([], {}, "", "", Some(0))];
            var e := ResolverEntry(h, [Addr("10.0.1.1:443")], "ssh", "", None);
            && Addr("10.0.1.1:443") in MergedAll(cache, [e])[h].addresses
            && !Live(MergedAll(cache, [e]), h, 1)
  {
    var h := Host("mds-01");
    var cache := map[h := Record([], {}, "", "", Some(0))];
    var e := ResolverEntry(h, [Addr("10.0.1.1:443")], "ssh", "", None);
    MergedHostByHost(cache, [e]);
    MergedIsLive(cache, [e], e, 1);
    AppendedIs([], e.addresses);
    assert e in [e];
  }
}
