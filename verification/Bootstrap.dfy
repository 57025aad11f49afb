/** The host cache of one node, cut into frames, delivered and merged. */
module Bootstraps {
  import opened Arithmetic
  import opened Wrappers
  import opened Ordering
  import opened Resolvers

  const CHUNK_SIZE := 500

  datatype HostEntry = HostEntry(addresses: seq<Addr>, transport: string, proxyURL: string)

  datatype BootstrapFrame = BootstrapFrame(
    hosts: map<Host, HostEntry>,
    sequence: nat,
    total: nat,
    protocolVersion: int,
    applicationVersion: string)

  // ---------------------------------------------------------------- cutting the entries into frames

  function PayloadOf(e: ResolverEntry): (he: HostEntry)
    ensures he.addresses == e.addresses && he.transport == e.transport && he.proxyURL == e.proxyURL
  {
    HostEntry(e.addresses, e.transport, e.proxyURL)
  }

  /** The map of a list of entries, a later entry of a host replacing an earlier one. */
  function HostsOf(entries: seq<ResolverEntry>): map<Host, HostEntry>
  {
    if entries == [] then map[]
    else HostsOf(entries[..|entries| - 1])[entries[|entries| - 1].host := PayloadOf(entries[|entries| - 1])]
  }

  /** The entries that go into frame `k`. */
  function Chunk(entries: seq<ResolverEntry>, k: nat): seq<ResolverEntry>
    requires CHUNK_SIZE * k <= |entries|
  {
    entries[CHUNK_SIZE * k..Min(CHUNK_SIZE * k + CHUNK_SIZE, |entries|)]
  }

  /** How many frames are sent: one for nothing, else one for every started 500 entries. */
  function FrameCount(n: nat): (total: nat)
    ensures n > 0 ==> CHUNK_SIZE * (total - 1) < n <= CHUNK_SIZE * total
  {
    if n == 0 then 1 else (n + CHUNK_SIZE - 1) / CHUNK_SIZE
  }

  /** The frames carry the entries in order, 500 to a frame, numbered from 0 out of their total. */
  ghost predicate Paginates(frames: seq<BootstrapFrame>, entries: seq<ResolverEntry>)
  {
    |frames| == FrameCount(|entries|) && Pages(frames, entries, |frames|)
  }

  /** The first frames of `total`. */
  ghost predicate Pages(frames: seq<BootstrapFrame>, entries: seq<ResolverEntry>, total: nat)
  {
    forall k :: 0 <= k < |frames| ==>
      && CHUNK_SIZE * k <= |entries|
      && frames[k].hosts == HostsOf(Chunk(entries, k))
      && frames[k].sequence == k && frames[k].total == total
  }

  lemma PagesSnoc(frames: seq<BootstrapFrame>, entries: seq<ResolverEntry>, f: BootstrapFrame, total: nat)
    requires Pages(frames, entries, total) && CHUNK_SIZE * |frames| <= |entries|
    requires f.hosts == HostsOf(Chunk(entries, |frames|)) && f.sequence == |frames| && f.total == total
    ensures Pages(frames + [f], entries, total)
  {
    hide HostsOf, Chunk;
  }

  lemma NoPages(entries: seq<ResolverEntry>, total: nat)
    ensures Pages([], entries, total)
  {
  }

  method CollectHosts(chunk: seq<ResolverEntry>) returns (hosts: map<Host, HostEntry>)
    ensures hosts == HostsOf(chunk)
  {
    hosts := map[];
    for i := 0 to |chunk|
      invariant hosts == HostsOf(chunk[..i])
    {
      assert chunk[..i + 1][..i] == chunk[..i];
      hosts := hosts[chunk[i].host := PayloadOf(chunk[i])];
    }
    assert chunk[..|chunk|] == chunk;
  }

  /** The frames for the entries of a cache, in the order in which the cache listed them. */
  method BuildBootstrapFrames(entries: seq<ResolverEntry>, protocolVersion: int, applicationVersion: string)
    returns (frames: seq<BootstrapFrame>)
    ensures Paginates(frames, entries)
    ensures if entries == [] then |frames| == 1 else 500 * (|frames| - 1) < |entries| <= 500 * |frames|
    ensures forall k :: 0 <= k < |frames| ==> frames[k].sequence == k && frames[k].total == |frames|
    ensures forall k :: 0 <= k < |frames| ==> |frames[k].hosts| <= 500
    ensures DistinctHosts(entries) ==> forall i :: 0 <= i < |entries| ==> Carried(frames, entries[i], i / 500)
    ensures forall f :: f in frames ==>
              f.protocolVersion == protocolVersion && f.applicationVersion == applicationVersion
  {
    if |entries| == 0 {
      frames := [BootstrapFrame(map[], 0, 1, protocolVersion, applicationVersion)];
      assert Chunk(entries, 0) == [];
      return;
    }
    hide HostsOf, Pages, Chunk, Carried;
    NoPages(entries, (|entries| + CHUNK_SIZE - 1) / CHUNK_SIZE);
    var totalChunks := (|entries| + CHUNK_SIZE - 1) / CHUNK_SIZE;
    frames := [];
    var i := 0;
    while i < |entries|
      invariant i == CHUNK_SIZE * |frames| && |frames| <= totalChunks == FrameCount(|entries|)
      invariant Pages(frames, entries, totalChunks)
      invariant forall f :: f in frames ==>
                  f.protocolVersion == protocolVersion && f.applicationVersion == applicationVersion
    {
      var end := i + CHUNK_SIZE;
      if end > |entries| {
        end := |entries|;
      }
      var hosts := CollectHosts(entries[i..end]);
      var frame := BootstrapFrame(hosts, |frames|, totalChunks, protocolVersion, applicationVersion);
      assert entries[i..end] == Chunk(entries, |frames|) by {
        ChunkIs(entries, |frames|);
      }
      PagesSnoc(frames, entries, frame, totalChunks);
      frames := frames + [frame];
      i := i + CHUNK_SIZE;
    }
    forall k | 0 <= k < |frames| ensures frames[k].sequence == k && frames[k].total == |frames| && |frames[k].hosts| <= 500 {
      FrameIs(frames, entries, k);
    }
    if DistinctHosts(entries) {
      forall j | 0 <= j < |entries| ensures Carried(frames, entries[j], j / 500) {
        FramesCarry(frames, entries, j);
      }
    }
  }

  lemma ChunkIs(entries: seq<ResolverEntry>, k: nat)
    requires CHUNK_SIZE * k <= |entries|
    ensures Chunk(entries, k) == if |entries| < CHUNK_SIZE * k + CHUNK_SIZE then entries[CHUNK_SIZE * k..]
                                 else entries[CHUNK_SIZE * k..CHUNK_SIZE * k + CHUNK_SIZE]
    ensures |Chunk(entries, k)| <= 500
  {
  }

  lemma {:induction false} HostsAtMost(entries: seq<ResolverEntry>)
    ensures |HostsOf(entries)| <= |entries|
  {
    if entries != [] {
      var front := entries[..|entries| - 1];
      HostsAtMost(front);
      assert HostsOf(entries).Keys == HostsOf(front).Keys + {entries[|entries| - 1].host};
    }
  }

  lemma FrameIs(frames: seq<BootstrapFrame>, entries: seq<ResolverEntry>, k: nat)
    requires Pages(frames, entries, |frames|) && k < |frames|
    ensures frames[k].sequence == k && frames[k].total == |frames| && |frames[k].hosts| <= 500
  {
    hide HostsOf, Chunk;
    ChunkIs(entries, k);
    HostsAtMost(Chunk(entries, k));
  }

  /** Frame `k` carries the entry, field by field. */
  ghost predicate Carried(frames: seq<BootstrapFrame>, e: ResolverEntry, k: int)
  {
    && 0 <= k < |frames| && e.host in frames[k].hosts
    && frames[k].hosts[e.host].addresses == e.addresses
    && frames[k].hosts[e.host].transport == e.transport
    && frames[k].hosts[e.host].proxyURL == e.proxyURL
  }

  /** Every entry is carried by the frame of its five hundred. */
  lemma FramesCarry(frames: seq<BootstrapFrame>, entries: seq<ResolverEntry>, i: nat)
    requires DistinctHosts(entries) && i < |entries| <= CHUNK_SIZE * |frames| && Pages(frames, entries, |frames|)
    ensures Carried(frames, entries[i], i / 500)
  {
    hide HostsOf, Chunk;
    var k := i / 500;
    assert i == 500 * k + i % 500;
    assert frames[k].hosts == HostsOf(Chunk(entries, k));
    ChunkIs(entries, k);
    var chunk := Chunk(entries, k);
    assert chunk[i - 500 * k] == entries[i];
    forall x, y | 0 <= x < y < |chunk| ensures chunk[x].host != chunk[y].host {
      assert chunk[x] == entries[500 * k + x] && chunk[y] == entries[500 * k + y];
    }
    HostsOfIs(chunk);
    assert entries[i] in chunk;
  }

  // ---------------------------------------------------------------- taking a frame in

  /** What a receiver merges for a host of a frame: an entry that does not expire. */
  function EntryIn(h: Host, he: HostEntry): (e: ResolverEntry)
    ensures e.host == h && e.addresses == he.addresses && e.transport == he.transport && e.proxyURL == he.proxyURL
    ensures e.expiresAt == None
  {
    ResolverEntry(h, he.addresses, he.transport, he.proxyURL, None)
  }

  /** A cache after the hosts of one frame were merged, said host by host. */
  ghost function MergedHosts(cache: Cache, hosts: map<Host, HostEntry>): Cache
  {
    map h | h in cache.Keys + hosts.Keys ::
      if h in hosts then Merged(if h in cache then Some(cache[h]) else None, EntryIn(h, hosts[h])) else cache[h]
  }

  /** `entries` lists a map of hosts, in some order. */
  ghost predicate ListsHosts(entries: seq<ResolverEntry>, hosts: map<Host, HostEntry>)
  {
    && DistinctHosts(entries)
    && forall e :: e in entries <==> e.host in hosts && e == EntryIn(e.host, hosts[e.host])
  }

  /** Whatever the order in which the hosts are listed, merging them gives the same cache. */
  lemma MergeListed(cache: Cache, entries: seq<ResolverEntry>, hosts: map<Host, HostEntry>)
    requires ListsHosts(entries, hosts)
    ensures MergedAll(cache, entries) == MergedHosts(cache, hosts)
  {
    hide Merged, MergedAll;
    MergedHostByHost(cache, entries);
    HostByHostMerged(cache, entries, hosts, MergedAll(cache, entries));
  }

  lemma HostByHostMerged(cache: Cache, entries: seq<ResolverEntry>, hosts: map<Host, HostEntry>, after: Cache)
    requires ListsHosts(entries, hosts) && HostByHost(cache, entries, after)
    ensures after == MergedHosts(cache, hosts)
  {
    hide Merged;
    forall h ensures (h in after <==> h in MergedHosts(cache, hosts)) && (h in after ==> after[h] == MergedHosts(cache, hosts)[h]) {
      if h in hosts {
        assert EntryIn(h, hosts[h]) in entries;
      } else {
        assert !Mentions(entries, h);
      }
    }
  }

  /**
   Takes a frame in: a peer of another protocol version is disconnected and nothing is
   merged; otherwise every host of the frame is merged. A missing frame is ignored.
   */
  method HandleBootstrapFrame(r: Resolver, localVersion: int, frame: Option<BootstrapFrame>) returns (closed: bool)
    requires r.Valid()
    modifies r
    ensures r.Valid()
    ensures closed <==> frame.Some? && frame.value.protocolVersion != localVersion
    ensures r.cache == if frame.None? || closed then old(r.cache) else MergedHosts(old(r.cache), frame.value.hosts)
  {
    if frame.None? {
      return false;
    }
    var bf := frame.value;
    if bf.protocolVersion != localVersion {
      return true;
    }
    closed := false;
    if |bf.hosts| > 0 {
      var entries := ListHosts(bf.hosts);
      MergeListed(r.cache, entries, bf.hosts);
      r.Merge(entries);
    } else {
      assert bf.hosts == map[];
      assert MergedHosts(r.cache, bf.hosts) == r.cache;
    }
  }

  method ListHosts(hosts: map<Host, HostEntry>) returns (entries: seq<ResolverEntry>)
    ensures ListsHosts(entries, hosts)
  {
    entries := [];
    var todo := hosts.Keys;
    while todo != {}
      invariant todo <= hosts.Keys && DistinctHosts(entries)
      invariant forall e :: e in entries <==> e.host in hosts && e.host !in todo && e == EntryIn(e.host, hosts[e.host])
    {
      var h :| h in todo;
      assert forall e :: e in entries ==> e.host != h;
      entries := entries + [EntryIn(h, hosts[h])];
      todo := todo - {h};
    }
  }

  // ---------------------------------------------------------------- all frames together

  /** A cache after the first frames of a sequence. */
  ghost function Received(cache: Cache, frames: seq<BootstrapFrame>): Cache
  {
    if frames == [] then cache
    else MergedHosts(Received(cache, frames[..|frames| - 1]), frames[|frames| - 1].hosts)
  }

  lemma {:induction false} HostsOfIs(entries: seq<ResolverEntry>)
    requires DistinctHosts(entries)
    ensures forall e :: e in entries ==> e.host in HostsOf(entries) && HostsOf(entries)[e.host] == PayloadOf(e)
    ensures forall h :: h in HostsOf(entries) ==> exists e :: e in entries && e.host == h
  {
    if entries != [] {
      var front, last := entries[..|entries| - 1], entries[|entries| - 1];
      assert entries == front + [last];
      HostsOfIs(front);
      forall h | h in HostsOf(entries) ensures exists e :: e in entries && e.host == h {
        if h == last.host {
          assert last in entries;
        } else {
          assert h in HostsOf(front);
          var e :| e in front && e.host == h;
          assert e in entries;
        }
      }
    }
  }

  lemma {:induction false} HostsOfConcat(a: seq<ResolverEntry>, b: seq<ResolverEntry>)
    ensures HostsOf(a + b) == HostsOf(a) + HostsOf(b)
  {
    if b == [] {
      assert a + b == a;
    } else {
      assert (a + b)[..|a + b| - 1] == a + b[..|b| - 1];
      HostsOfConcat(a, b[..|b| - 1]);
    }
  }

  lemma HostsDisjoint(a: seq<ResolverEntry>, b: seq<ResolverEntry>)
    requires DistinctHosts(a + b)
    ensures HostsOf(a).Keys !! HostsOf(b).Keys
  {
    hide HostsOf;
    DistinctParts(a, b);
    HostsOfIs(a);
    HostsOfIs(b);
    forall h | h in HostsOf(a) ensures h !in HostsOf(b) {
      if h in HostsOf(b) {
        var e :| e in a && e.host == h;
        var f :| f in b && f.host == h;
        HostOnce(a, b, e, f);
      }
    }
  }

  lemma MergedApart(cache: Cache, a: map<Host, HostEntry>, b: map<Host, HostEntry>)
    requires a.Keys !! b.Keys
    ensures MergedHosts(MergedHosts(cache, a), b) == MergedHosts(cache, a + b)
  {
    hide Merged;
    var left, right := MergedHosts(MergedHosts(cache, a), b), MergedHosts(cache, a + b);
    assert left.Keys == right.Keys;
    forall h | h in right ensures left[h] == right[h] {
      if h in b {
        assert h !in a;
      }
    }
  }

  /** Merging two lists of distinct hosts one after the other is merging their concatenation. */
  lemma MergedTogether(cache: Cache, a: seq<ResolverEntry>, b: seq<ResolverEntry>)
    requires DistinctHosts(a + b)
    ensures MergedHosts(MergedHosts(cache, HostsOf(a)), HostsOf(b)) == MergedHosts(cache, HostsOf(a + b))
  {
    hide MergedHosts, HostsOf;
    HostsDisjoint(a, b);
    HostsOfConcat(a, b);
    MergedApart(cache, HostsOf(a), HostsOf(b));
  }

  lemma DistinctParts(a: seq<ResolverEntry>, b: seq<ResolverEntry>)
    requires DistinctHosts(a + b)
    ensures DistinctHosts(a) && DistinctHosts(b)
  {
    forall i, j | 0 <= i < j < |a| ensures a[i].host != a[j].host {
      assert (a + b)[i] == a[i] && (a + b)[j] == a[j];
    }
    forall i, j | 0 <= i < j < |b| ensures b[i].host != b[j].host {
      assert (a + b)[|a| + i] == b[i] && (a + b)[|a| + j] == b[j];
    }
  }

  lemma HostOnce(a: seq<ResolverEntry>, b: seq<ResolverEntry>, e: ResolverEntry, f: ResolverEntry)
    requires DistinctHosts(a + b) && e in a && f in b
    ensures e.host != f.host
  {
    var i :| 0 <= i < |a| && a[i] == e;
    var j :| 0 <= j < |b| && b[j] == f;
    assert (a + b)[i] == e && (a + b)[|a| + j] == f;
  }

  lemma PaginatesAt(frames: seq<BootstrapFrame>, entries: seq<ResolverEntry>, k: nat)
    requires Paginates(frames, entries) && k < |frames|
    ensures CHUNK_SIZE * k <= |entries| && frames[k].hosts == HostsOf(Chunk(entries, k))
  {
    hide HostsOf, Chunk;
  }

  lemma ChunkExtends(entries: seq<ResolverEntry>, k: nat)
    requires CHUNK_SIZE * k <= |entries|
    ensures entries[..CHUNK_SIZE * k] + Chunk(entries, k) == entries[..Min(CHUNK_SIZE * (k + 1), |entries|)]
  {
  }

  /** No two frames carry the same host. */
  lemma FramesDisjoint(entries: seq<ResolverEntry>, frames: seq<BootstrapFrame>, i: nat, j: nat)
    requires DistinctHosts(entries) && Paginates(frames, entries) && i < j < |frames|
    ensures frames[i].hosts.Keys !! frames[j].hosts.Keys
  {
    hide HostsOf, Paginates;
    PaginatesAt(frames, entries, i);
    PaginatesAt(frames, entries, j);
    var a, b := Chunk(entries, i), Chunk(entries, j);
    var all := a + b;
    assert forall x :: 0 <= x < |all| ==>
      all[x] == if x < |a| then entries[CHUNK_SIZE * i + x] else entries[CHUNK_SIZE * j + (x - |a|)];
    HostsDisjoint(a, b);
  }

  /**
   However many of the frames arrive, the receiver ends up as if the entries they cover
   had been merged all at once; with all frames, as if the whole cache had been.
   */
  lemma {:induction false} FramesMergeAsOne(cache: Cache, entries: seq<ResolverEntry>, frames: seq<BootstrapFrame>, k: nat)
    requires DistinctHosts(entries) && Paginates(frames, entries) && k <= |frames|
    ensures var covered := Min(CHUNK_SIZE * k, |entries|);
            Received(cache, frames[..k]) == MergedHosts(cache, HostsOf(entries[..covered]))
    ensures Min(CHUNK_SIZE * |frames|, |entries|) == |entries|
  {
    hide Paginates, HostsOf, Chunk, MergedHosts;
    PaginatesAll(frames, entries);
    if k == 0 {
      assert entries[..0] == [];
      NoHosts(cache);
    } else {
      FramesMergeAsOne(cache, entries, frames, k - 1);
      assert frames[..k][..k - 1] == frames[..k - 1];
      PaginatesAt(frames, entries, k - 1);
      ChunkExtends(entries, k - 1);
      MergedTogether(cache, entries[..CHUNK_SIZE * (k - 1)], Chunk(entries, k - 1));
    }
  }

  lemma PaginatesAll(frames: seq<BootstrapFrame>, entries: seq<ResolverEntry>)
    requires Paginates(frames, entries)
    ensures |entries| <= CHUNK_SIZE * |frames|
  {
    hide HostsOf, Chunk;
  }

  lemma NoHosts(cache: Cache)
    ensures MergedHosts(cache, HostsOf([])) == cache
  {
  }

  /**
   From one cache to another: after all frames every unexpired host of the sender is known
   to the receiver with all its addresses. A host that is new to the receiver has the
   sender's transport and proxy; a known one keeps its own and gains only what was empty.
   Every other host is as it was.
   */
  lemma BootstrapDelivers(sender: Cache, now: int, entries: seq<ResolverEntry>, frames: seq<BootstrapFrame>, receiver: Cache)
    requires ListsLive(entries, sender, now) && Paginates(frames, entries)
    ensures var after := Received(receiver, frames);
            && (forall h :: Live(sender, h, now) ==>
                  && h in after
                  && (forall a :: a in sender[h].addresses ==> a in after[h].addresses)
                  && (h in receiver ==> receiver[h].addresses <= after[h].addresses)
                  && (h !in receiver ==> after[h].addresses == sender[h].addresses)
                  && after[h].transport == (if h in receiver && receiver[h].transport != "" then receiver[h].transport
                                            else sender[h].transport)
                  && after[h].proxyURL == (if h in receiver && receiver[h].proxyURL != "" then receiver[h].proxyURL
                                           else sender[h].proxyURL)
                  && (forall t :: Live(after, h, t) <==> h !in receiver || Live(receiver, h, t)))
            && (forall h :: h in after && !Live(sender, h, now) ==> h in receiver && after[h] == receiver[h])
            && (forall h :: h in receiver ==> h in after)
  {
    FramesMergeAsOne(receiver, entries, frames, |frames|);
    assert frames[..|frames|] == frames && entries[..|entries|] == entries;
    HostsOfIs(entries);
    var after := Received(receiver, frames);
    forall h | Live(sender, h, now)
      ensures h in after
      ensures forall a :: a in sender[h].addresses ==> a in after[h].addresses
      ensures h in receiver ==> receiver[h].addresses <= after[h].addresses
      ensures h !in receiver ==> after[h].addresses == sender[h].addresses
      ensures after[h].transport == (if h in receiver && receiver[h].transport != "" then receiver[h].transport
                                     else sender[h].transport)
      ensures after[h].proxyURL == (if h in receiver && receiver[h].proxyURL != "" then receiver[h].proxyURL
                                    else sender[h].proxyURL)
      ensures forall t :: Live(after, h, t) <==> h !in receiver || Live(receiver, h, t)
    {
      assert EntryOf(h, sender[h]) in entries;
      if h in receiver {
        AppendedIs(receiver[h].addresses, sender[h].addresses);
      }
    }
    forall h | h in after && !Live(sender, h, now) ensures h in receiver && after[h] == receiver[h] {
      assert h !in HostsOf(entries);
    }
  }

  // ---------------------------------------------------------------- reliable sending

  const RETRY_INITIAL := 10
  const RETRY_MAX := 500

  /** What ends a wait for room in the queue. */
  datatype Wake = TimerFires | PeerDies | ContextEnds

  /** The answer to one attempt to enqueue, with what ended the wait after a refusal. */
  datatype Answer = Accepted | Full(wake: Wake)

  datatype Outcome = Delivered | Aborted | StillTrying

  function AcceptedIn(script: seq<Answer>): nat
  {
    if script == [] then 0
    else AcceptedIn(script[..|script| - 1]) + if script[|script| - 1].Accepted? then 1 else 0
  }

  /** How many refusals in a row end a script. */
  function Streak(script: seq<Answer>): nat
  {
    if script == [] || script[|script| - 1].Accepted? then 0 else Streak(script[..|script| - 1]) + 1
  }

  function Pow2(n: nat): (p: nat)
    ensures p >= 1
  {
    if n == 0 then 1 else 2 * Pow2(n - 1)
  }

  /** The wait after that many refusals in a row: 10 ms, doubled each time, at most 500 ms. */
  function RetryDelay(refusals: nat): int
  {
    Min(RETRY_INITIAL * Pow2(refusals), RETRY_MAX)
  }

  /** The waits that a script of answers leads to, one for every refusal. */
  function Waits(script: seq<Answer>): seq<int>
  {
    if script == [] then []
    else
      var front := script[..|script| - 1];
      if script[|script| - 1].Accepted? then Waits(front) else Waits(front) + [RetryDelay(Streak(front))]
  }

  lemma ScriptStep(script: seq<Answer>, i: nat)
    requires i < |script|
    ensures AcceptedIn(script[..i + 1]) == AcceptedIn(script[..i]) + if script[i].Accepted? then 1 else 0
    ensures Streak(script[..i + 1]) == if script[i].Accepted? then 0 else Streak(script[..i]) + 1
    ensures Waits(script[..i + 1]) ==
            if script[i].Accepted? then Waits(script[..i]) else Waits(script[..i]) + [RetryDelay(Streak(script[..i]))]
  {
    assert script[..i + 1][..i] == script[..i];
  }

  lemma DelayStep(refusals: nat)
    ensures RetryDelay(refusals + 1) == Min(2 * RetryDelay(refusals), RETRY_MAX)
    ensures RetryDelay(0) == RETRY_INITIAL
  {
  }

  /** What the sender has done after the first `used` answers. */
  ghost predicate Tracks(script: seq<Answer>, used: nat, enqueued: nat, waits: seq<int>, backoff: int)
  {
    && used <= |script|
    && enqueued == AcceptedIn(script[..used])
    && waits == Waits(script[..used])
    && backoff == RetryDelay(Streak(script[..used]))
  }

  lemma TracksNothing(script: seq<Answer>)
    ensures Tracks(script, 0, 0, [], RETRY_INITIAL)
  {
    assert script[..0] == [];
  }

  lemma TracksStep(script: seq<Answer>, used: nat, enqueued: nat, waits: seq<int>, backoff: int)
    requires Tracks(script, used, enqueued, waits, backoff) && used < |script|
    ensures if script[used].Accepted? then Tracks(script, used + 1, enqueued + 1, waits, RETRY_INITIAL)
            else Tracks(script, used + 1, enqueued, waits + [backoff], Min(2 * backoff, RETRY_MAX))
  {
    hide AcceptedIn, Streak, Waits, RetryDelay;
    ScriptStep(script, used);
    DelayStep(Streak(script[..used]));
  }

  /**
   Enqueues frames one after the other, waiting and trying again when the queue is full.
   `script` is what the environment answers; `used` says how much of it was needed.
   Each frame is enqueued once and in order, and only a dead peer or an ended context
   keeps a frame from being enqueued in the end.
   */
  method SendBootstrapReliable(frames: seq<BootstrapFrame>, script: seq<Answer>)
    returns (enqueued: seq<BootstrapFrame>, waits: seq<int>, outcome: Outcome, used: nat)
    ensures enqueued <= frames && used <= |script|
    ensures |enqueued| == AcceptedIn(script[..used]) && waits == Waits(script[..used])
    ensures outcome == Delivered <==> enqueued == frames
    ensures outcome == Aborted <==> used > 0 && script[used - 1].Full? && !script[used - 1].wake.TimerFires?
    ensures outcome == StillTrying ==> used == |script|
  {
    hide AcceptedIn, Streak, Waits, RetryDelay;
    enqueued, waits, used := [], [], 0;
    var backoff := RETRY_INITIAL;
    TracksNothing(script);
    for i := 0 to |frames|
      invariant enqueued == frames[..i] && Tracks(script, used, i, waits, backoff)
      invariant used > 0 ==> script[used - 1].Accepted?
    {
      hide Tracks;
      var sent := false;
      while !sent
        invariant used <= |script| && enqueued == if sent then frames[..i + 1] else frames[..i]
        invariant Tracks(script, used, |enqueued|, waits, backoff)
        invariant used > 0 ==> script[used - 1].Accepted? || script[used - 1].wake.TimerFires?
        invariant sent ==> used > 0 && script[used - 1].Accepted?
        decreases |script| - used, !sent
      {
        if used == |script| {
          TracksMeans(script, used, |enqueued|, waits, backoff);
          return enqueued, waits, StillTrying, used;
        }
        var answer := script[used];
        TracksStep(script, used, |enqueued|, waits, backoff);
        used := used + 1;
        if answer.Accepted? {
          enqueued := enqueued + [frames[i]];
          backoff := RETRY_INITIAL;
          sent := true;
        } else {
          waits := waits + [backoff];
          if answer.wake != TimerFires {
            TracksMeans(script, used, |enqueued|, waits, Min(2 * backoff, RETRY_MAX));
            return enqueued, waits, Aborted, used;
          }
          backoff := backoff * 2;
          if backoff > RETRY_MAX {
            backoff := RETRY_MAX;
          }
        }
      }
    }
    outcome := Delivered;
  }

  /** Ten milliseconds, doubled with every refusal in a row, up to half a second. */
  lemma DelayTable()
    ensures RetryDelay(0) == 10 && RetryDelay(1) == 20 && RetryDelay(2) == 40 && RetryDelay(3) == 80
    ensures RetryDelay(4) == 160 && RetryDelay(5) == 320 && RetryDelay(6) == 500
  {
    SmallDelays();
  }

  /** The waits of `n` refusals in a row. */
  function Backoff(n: nat): (waits: seq<int>)
    ensures |waits| == n && forall i :: 0 <= i < n ==> waits[i] == RetryDelay(i)
  {
    seq(n, i requires 0 <= i < n => RetryDelay(i))
  }

  /** Refusals in a row wait longer and longer; an acceptance starts the waits over, and is itself counted. */
  lemma {:induction false} WaitsStartOver(before: seq<Answer>, refusals: seq<Answer>)
    requires (forall i :: 0 <= i < |refusals| ==> refusals[i].Full?) && (before == [] || before[|before| - 1].Accepted?)
    ensures Waits(before + refusals) == Waits(before) + Backoff(|refusals|)
    ensures Streak(before + refusals) == |refusals| && AcceptedIn(before + refusals) == AcceptedIn(before)
    ensures AcceptedIn(before + [Accepted]) == AcceptedIn(before) + 1 && AcceptedIn([]) == 0 && Waits([]) == []
    ensures Waits(before + [Accepted]) == Waits(before)
  {
    assert (before + [Accepted])[..|before|] == before;
    if refusals == [] {
      assert before + refusals == before && Waits(before) + Backoff(0) == Waits(before);
    } else {
      var front := refusals[..|refusals| - 1];
      WaitsStartOver(before, front);
      assert (before + refusals)[..|before + refusals| - 1] == before + front;
      assert Backoff(|refusals|) == Backoff(|front|) + [RetryDelay(|front|)];
    }
  }

  lemma TracksMeans(script: seq<Answer>, used: nat, enqueued: nat, waits: seq<int>, backoff: int)
    requires Tracks(script, used, enqueued, waits, backoff)
    ensures used <= |script| && enqueued == AcceptedIn(script[..used]) && waits == Waits(script[..used])
  {
  }

  /** The waits grow up to the cap and then stay there; six refusals in a row reach it. */
  lemma {:induction false} DelaysGrow(i: nat, j: nat)
    requires i <= j
    ensures RETRY_INITIAL <= RetryDelay(i) <= RetryDelay(j) <= RETRY_MAX
    ensures j >= 6 ==> RetryDelay(j) == RETRY_MAX
    ensures RetryDelay(i) == RETRY_MAX ==> i >= 6
    decreases j
  {
    if j > i {
      DelaysGrow(i, j - 1);
    }
    SmallDelays();
    if i < 6 {
      assert Pow2(i) < 50;
    } else if j >= 6 {
      AtLeast64(j);
      AtLeast64(i);
    }
    if j >= 6 {
      AtLeast64(j);
    }
  }

  lemma SmallDelays()
    ensures Pow2(0) == 1 && Pow2(1) == 2 && Pow2(2) == 4 && Pow2(3) == 8 && Pow2(4) == 16 && Pow2(5) == 32
    ensures Pow2(6) == 64
  {
  }

  lemma {:induction false} AtLeast64(j: nat)
    requires j >= 6
    ensures Pow2(j) >= 64
  {
    if j == 6 {
      SmallDelays();
    } else {
      AtLeast64(j - 1);
    }
  }
}
