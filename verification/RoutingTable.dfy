/**
 The Kademlia routing table.  An insert into a full bucket happens in two steps
 around a ping, and other operations may run in between.
 */
module RoutingTable {
  import opened Basics
  import opened Hashing
  import opened Distance
  import opened Sorting

  /** Maximum peers per bucket. */
  const K: nat := 20

  datatype Peer = Peer(id: NodeID, addr: nat)

  type Buckets = seq<seq<Peer>>

  function Position(nodes: seq<Peer>, id: NodeID): (r: Option<nat>)
    ensures r.Some? ==> r.value < |nodes| && nodes[r.value].id == id
    ensures r.None? ==> forall p | p in nodes :: p.id != id
  {
    if nodes == [] then None
    else if nodes[0].id == id then Some(0)
    else
      var r := Position(nodes[1..], id);
      if r.None? then None else Some(r.value + 1)
  }

  /** Refresh, prepend, or hand back the oldest peer of a full bucket as a candidate for eviction. */
  function BucketInsert(nodes: seq<Peer>, p: Peer): (seq<Peer>, Option<Peer>) {
    var pos := Position(nodes, p.id);
    if pos.Some? then ([nodes[pos.value]] + nodes[..pos.value] + nodes[pos.value + 1..], None)
    else if |nodes| < K then ([p] + nodes, None)
    else (nodes, Some(nodes[|nodes| - 1]))
  }

  function ReplaceTail(nodes: seq<Peer>, p: Peer): seq<Peer> {
    if nodes == [] then nodes else [p] + nodes[..|nodes| - 1]
  }

  function RemoveId(nodes: seq<Peer>, id: NodeID): (r: seq<Peer>)
    ensures |r| <= |nodes| && forall p :: p in r <==> p in nodes && p.id != id
  {
    if nodes == [] then []
    else if nodes[0].id == id then RemoveId(nodes[1..], id)
    else [nodes[0]] + RemoveId(nodes[1..], id)
  }

  function Slot(local: NodeID, id: NodeID): (i: nat)
    ensures i < NBUCKETS
  {
    BucketIndex(Xor(local, id))
  }

  ghost predicate BucketOk(local: NodeID, nodes: seq<Peer>, i: nat) {
    |nodes| <= K && forall p | p in nodes :: p.id != local && Slot(local, p.id) == i
  }

  ghost predicate TableOk(local: NodeID, buckets: Buckets) {
    |buckets| == NBUCKETS && forall i | 0 <= i < NBUCKETS :: BucketOk(local, buckets[i], i)
  }

  ghost predicate DistinctIds(nodes: seq<Peer>) {
    forall i, j | 0 <= i < j < |nodes| :: nodes[i].id != nodes[j].id
  }

  /** No id occurs twice anywhere in the table (different buckets hold different ids anyway). */
  ghost predicate TableDistinct(buckets: Buckets) {
    forall i | 0 <= i < |buckets| :: DistinctIds(buckets[i])
  }

  // ------------------------------------------------------------ operations

  /** The steps that touch the table.  `Begin` and `Finish` are an insert before and after its ping. */
  datatype TableStep = Begin(peer: Peer) | Finish(peer: Peer, alive: bool) | Remove(id: NodeID)

  function Candidate(local: NodeID, buckets: Buckets, p: Peer): Option<Peer>
    requires |buckets| == NBUCKETS
  {
    if p.id == local then None else BucketInsert(buckets[Slot(local, p.id)], p).1
  }

  function Apply(local: NodeID, buckets: Buckets, s: TableStep): Buckets
    requires |buckets| == NBUCKETS
  {
    match s
    case Begin(p) =>
      if p.id == local then buckets
      else buckets[Slot(local, p.id) := BucketInsert(buckets[Slot(local, p.id)], p).0]
    case Finish(p, alive) =>
      if p.id == local || alive then buckets
      else buckets[Slot(local, p.id) := ReplaceTail(buckets[Slot(local, p.id)], p)]
    case Remove(id) =>
      buckets[Slot(local, id) := RemoveId(buckets[Slot(local, id)], id)]
  }

  /** Every step keeps every bucket within K, each peer in its bucket, and the local node out. */
  lemma {:induction false} StepKeepsTable(local: NodeID, buckets: Buckets, s: TableStep)
    requires TableOk(local, buckets)
    ensures TableOk(local, Apply(local, buckets, s))
  {
    if !s.Remove? && s.peer.id != local {
      var i := Slot(local, s.peer.id);
      assert BucketOk(local, buckets[i], i);
    }
  }

  function AllSteps(local: NodeID, buckets: Buckets, steps: seq<TableStep>, n: nat): (r: Buckets)
    requires |buckets| == NBUCKETS && n <= |steps|
    ensures |r| == NBUCKETS
  {
    if n == 0 then buckets else Apply(local, AllSteps(local, buckets, steps, n - 1), steps[n - 1])
  }

  /** Main result: whatever the interleaving of begun and finished inserts and removals. */
  lemma {:induction false} AnyInterleaving(local: NodeID, buckets: Buckets, steps: seq<TableStep>, n: nat)
    requires TableOk(local, buckets) && n <= |steps|
    ensures TableOk(local, AllSteps(local, buckets, steps, n))
  {
    if n > 0 {
      AnyInterleaving(local, buckets, steps, n - 1);
      StepKeepsTable(local, AllSteps(local, buckets, steps, n - 1), steps[n - 1]);
    }
  }

  // ------------------------------------------------------- distinct peers

  /** Where ids are distinct, removing one takes out just its peer and keeps the others in order. */
  lemma {:induction false} RemoveIdExactly(nodes: seq<Peer>, i: nat)
    requires DistinctIds(nodes) && i < |nodes|
    ensures RemoveId(nodes, nodes[i].id) == nodes[..i] + nodes[i + 1..]
  {
    var id := nodes[i].id;
    if i == 0 {
      RemoveIdAbsent(nodes[1..], id);
      assert nodes[..0] + nodes[1..] == nodes[1..];
    } else {
      var tail, j: nat := nodes[1..], i - 1;
      TailDistinct(nodes);
      RemoveIdExactly(tail, j);
      CutAfterHead(nodes, i, tail, j);
      assert tail[j].id == id && nodes[0].id != id;
    }
  }

  lemma {:induction false} TailDistinct(nodes: seq<Peer>)
    requires DistinctIds(nodes) && nodes != []
    ensures DistinctIds(nodes[1..])
  {
  }

  lemma {:induction false} CutAfterHead<T>(s: seq<T>, i: nat, tail: seq<T>, j: nat)
    requires 0 < i < |s| && tail == s[1..] && j == i - 1
    ensures [s[0]] + (tail[..j] + tail[j + 1..]) == s[..i] + s[i + 1..]
  {
  }

  lemma {:induction false} RemoveIdAbsent(nodes: seq<Peer>, id: NodeID)
    requires forall q | q in nodes :: q.id != id
    ensures RemoveId(nodes, id) == nodes
  {
    if nodes != [] { RemoveIdAbsent(nodes[1..], id); }
  }

  lemma {:induction false} RemoveIdDistinct(nodes: seq<Peer>, id: NodeID)
    requires DistinctIds(nodes)
    ensures DistinctIds(RemoveId(nodes, id))
  {
    if nodes != [] {
      RemoveIdDistinct(nodes[1..], id);
      var r := RemoveId(nodes[1..], id);
      forall j | 0 <= j < |r| ensures r[j].id != nodes[0].id { assert r[j] in nodes[1..]; }
    }
  }

  lemma {:induction false} BucketInsertDistinct(nodes: seq<Peer>, p: Peer)
    requires DistinctIds(nodes)
    ensures DistinctIds(BucketInsert(nodes, p).0)
    ensures BucketInsert(nodes, p).1.Some? ==> DistinctIds(ReplaceTail(BucketInsert(nodes, p).0, p))
  {
    var pos := Position(nodes, p.id);
    if pos.None? {
      assert forall i | 0 <= i < |nodes| :: nodes[i] in nodes;
    }
  }

  /** An insert whose two steps are not interleaved with anything keeps ids distinct. */
  lemma {:induction false} InsertKeepsDistinct(local: NodeID, buckets: Buckets, p: Peer, alive: bool)
    requires |buckets| == NBUCKETS && TableDistinct(buckets)
    ensures TableDistinct(Apply(local, buckets, Begin(p)))
    ensures Candidate(local, buckets, p).Some? ==>
      TableDistinct(Apply(local, Apply(local, buckets, Begin(p)), Finish(p, alive)))
  {
    if p.id != local { BucketInsertDistinct(buckets[Slot(local, p.id)], p); }
  }

  lemma {:induction false} RemoveKeepsDistinct(local: NodeID, buckets: Buckets, id: NodeID)
    requires |buckets| == NBUCKETS && TableDistinct(buckets)
    ensures TableDistinct(Apply(local, buckets, Remove(id)))
  {
    RemoveIdDistinct(buckets[Slot(local, id)], id);
  }

  /** What the code would have to ask after the ping of a dead tail: the bucket, without its tail, does not hold `p` by now. */
  predicate FitsInstead(nodes: seq<Peer>, p: Peer) {
    nodes == [] || Position(nodes[..|nodes| - 1], p.id).None?
  }

  /** The second half of an insert, whenever it runs, keeps ids distinct exactly when that holds at that moment. */
  lemma {:induction false} FinishKeepsDistinct(local: NodeID, buckets: Buckets, p: Peer)
    requires |buckets| == NBUCKETS && TableDistinct(buckets) && p.id != local
    ensures TableDistinct(Apply(local, buckets, Finish(p, false))) <==> FitsInstead(buckets[Slot(local, p.id)], p)
  {
    var i, after := Slot(local, p.id), Apply(local, buckets, Finish(p, false));
    var nodes := buckets[i];
    if nodes != [] {
      var rest := nodes[..|nodes| - 1];
      assert after[i] == [p] + rest;
      if FitsInstead(nodes, p) {
        assert forall j | 0 <= j < |rest| :: rest[j] in rest;
        assert DistinctIds(after[i]);
      } else {
        var k := Position(rest, p.id).value;
        assert after[i][0].id == after[i][k + 1].id;
      }
    }
  }

  lemma {:induction false} BeginKeepsDistinct(local: NodeID, buckets: Buckets, p: Peer)
    requires |buckets| == NBUCKETS && TableDistinct(buckets)
    ensures TableDistinct(Apply(local, buckets, Begin(p)))
  {
    if p.id != local { BucketInsertDistinct(buckets[Slot(local, p.id)], p); }
  }

  /** A step that may put a peer in twice: the end of an insert whose candidate for eviction did not answer. */
  predicate Evicts(local: NodeID, s: TableStep) {
    s.Finish? && !s.alive && s.peer.id != local
  }

  /** Step `i` of a run, if it evicts, finds that the new peer has not come in meanwhile. */
  predicate Guarded(local: NodeID, buckets: Buckets, steps: seq<TableStep>, i: nat)
    requires |buckets| == NBUCKETS && i < |steps|
  {
    Evicts(local, steps[i]) ==> FitsInstead(AllSteps(local, buckets, steps, i)[Slot(local, steps[i].peer.id)], steps[i].peer)
  }

  lemma {:induction false} StepDistinct(local: NodeID, buckets: Buckets, steps: seq<TableStep>, i: nat)
    requires |buckets| == NBUCKETS && i < |steps| && TableDistinct(AllSteps(local, buckets, steps, i))
    ensures TableDistinct(AllSteps(local, buckets, steps, i + 1)) <==> Guarded(local, buckets, steps, i)
  {
    var before := AllSteps(local, buckets, steps, i);
    match steps[i]
    case Begin(p) => BeginKeepsDistinct(local, before, p);
    case Finish(p, alive) => if Evicts(local, steps[i]) { FinishKeepsDistinct(local, before, p); }
    case Remove(id) => RemoveKeepsDistinct(local, before, id);
  }

  /** Ids are distinct after each of the first `n` steps. */
  ghost predicate StaysDistinct(local: NodeID, buckets: Buckets, steps: seq<TableStep>, n: nat)
    requires |buckets| == NBUCKETS && n <= |steps|
  {
    forall m | 0 <= m <= n :: TableDistinct(AllSteps(local, buckets, steps, m))
  }

  ghost predicate AllGuarded(local: NodeID, buckets: Buckets, steps: seq<TableStep>, n: nat)
    requires |buckets| == NBUCKETS && n <= |steps|
  {
    forall i | 0 <= i < n :: Guarded(local, buckets, steps, i)
  }

  /**
   Main result: over any interleaving of begun and finished inserts and removals, ids stay distinct after
   every step if and only if every eviction finds the new peer not in its bucket yet.
   */
  lemma {:induction false} DistinctExactly(local: NodeID, buckets: Buckets, steps: seq<TableStep>, n: nat)
    requires |buckets| == NBUCKETS && TableDistinct(buckets) && n <= |steps|
    ensures StaysDistinct(local, buckets, steps, n) <==> AllGuarded(local, buckets, steps, n)
  {
    if n > 0 {
      DistinctExactly(local, buckets, steps, n - 1);
      DistinctNext(local, buckets, steps, n - 1, n);
    }
  }

  lemma {:induction false} DistinctNext(local: NodeID, buckets: Buckets, steps: seq<TableStep>, n: nat, next: nat)
    requires |buckets| == NBUCKETS && next == n + 1 <= |steps|
    requires StaysDistinct(local, buckets, steps, n) <==> AllGuarded(local, buckets, steps, n)
    ensures StaysDistinct(local, buckets, steps, next) <==> AllGuarded(local, buckets, steps, next)
  {
    LastDistinct(local, buckets, steps, n);
    LastGuarded(local, buckets, steps, n);
    if StaysDistinct(local, buckets, steps, n) {
      assert TableDistinct(AllSteps(local, buckets, steps, n));
      StepDistinct(local, buckets, steps, n);
    }
  }

  lemma {:induction false} LastDistinct(local: NodeID, buckets: Buckets, steps: seq<TableStep>, n: nat)
    requires |buckets| == NBUCKETS && n < |steps|
    ensures StaysDistinct(local, buckets, steps, n + 1)
       <==> StaysDistinct(local, buckets, steps, n) && TableDistinct(AllSteps(local, buckets, steps, n + 1))
  {
  }

  lemma {:induction false} LastGuarded(local: NodeID, buckets: Buckets, steps: seq<TableStep>, n: nat)
    requires |buckets| == NBUCKETS && n < |steps|
    ensures AllGuarded(local, buckets, steps, n + 1)
       <==> AllGuarded(local, buckets, steps, n) && Guarded(local, buckets, steps, n)
  {
  }

  /** Inserts that are not interleaved, and removals. */
  datatype TableEvent = Inserted(peer: Peer, alive: bool) | Removed(id: NodeID)

  function ApplyEvent(local: NodeID, buckets: Buckets, e: TableEvent): (r: Buckets)
    requires |buckets| == NBUCKETS
    ensures |r| == NBUCKETS
  {
    match e
    case Inserted(p, alive) =>
      var begun := Apply(local, buckets, Begin(p));
      if Candidate(local, buckets, p).Some? then Apply(local, begun, Finish(p, alive)) else begun
    case Removed(id) => Apply(local, buckets, Remove(id))
  }

  function AllEvents(local: NodeID, buckets: Buckets, events: seq<TableEvent>, n: nat): (r: Buckets)
    requires |buckets| == NBUCKETS && n <= |events|
    ensures |r| == NBUCKETS
  {
    if n == 0 then buckets else ApplyEvent(local, AllEvents(local, buckets, events, n - 1), events[n - 1])
  }

  /** Any run of whole inserts and removals keeps ids distinct. */
  lemma {:induction false} WholeInsertsKeepDistinct(local: NodeID, buckets: Buckets, events: seq<TableEvent>, n: nat)
    requires |buckets| == NBUCKETS && TableDistinct(buckets) && n <= |events|
    ensures TableDistinct(AllEvents(local, buckets, events, n))
  {
    if n > 0 {
      WholeInsertsKeepDistinct(local, buckets, events, n - 1);
      var before := AllEvents(local, buckets, events, n - 1);
      match events[n - 1]
      case Inserted(p, alive) => InsertKeepsDistinct(local, before, p, alive);
      case Removed(id) => RemoveKeepsDistinct(local, before, id);
    }
  }

  /**
   Two inserts of the same new peer into a full bucket, both begun before either is finished and both
   finding the tail dead: the peer is in the bucket twice.
   */
  lemma {:induction false} InterleavedDuplicate(local: NodeID, buckets: Buckets, p: Peer)
    requires TableOk(local, buckets) && TableDistinct(buckets) && p.id != local
    requires |buckets[Slot(local, p.id)]| == K && Position(buckets[Slot(local, p.id)], p.id).None?
    ensures var steps := [Begin(p), Begin(p), Finish(p, false), Finish(p, false)];
      !TableDistinct(AllSteps(local, buckets, steps, 4))
  {
    var steps := [Begin(p), Begin(p), Finish(p, false), Finish(p, false)];
    var i := Slot(local, p.id);
    FullBucketWaits(local, buckets, p);
    assert AllSteps(local, buckets, steps, 1) == buckets;
    assert AllSteps(local, buckets, steps, 2) == buckets;
    var once := Apply(local, buckets, Finish(p, false));
    assert AllSteps(local, buckets, steps, 3) == once;
    TailReplaced(local, buckets, p);
    TailReplaced(local, once, p);
    var twice := Apply(local, once, Finish(p, false))[i];
    assert twice[0].id == twice[1].id;
  }

  lemma {:induction false} FullBucketWaits(local: NodeID, buckets: Buckets, p: Peer)
    requires |buckets| == NBUCKETS && |buckets[Slot(local, p.id)]| == K && Position(buckets[Slot(local, p.id)], p.id).None?
    ensures Apply(local, buckets, Begin(p)) == buckets
  {
  }

  lemma {:induction false} TailReplaced(local: NodeID, buckets: Buckets, p: Peer)
    requires |buckets| == NBUCKETS && |buckets[Slot(local, p.id)]| == K && p.id != local
    ensures |Apply(local, buckets, Finish(p, false))| == NBUCKETS
    ensures Apply(local, buckets, Finish(p, false))[Slot(local, p.id)] == [p] + buckets[Slot(local, p.id)][..K - 1]
  {
  }

  // ------------------------------------------------- what an insert is for

  /** A bucket after a whole insert; `alive` is the answer of the candidate for eviction, if there is one. */
  function InsertedInto(nodes: seq<Peer>, p: Peer, alive: bool): seq<Peer> {
    var (begun, candidate) := BucketInsert(nodes, p);
    if candidate.Some? && !alive then ReplaceTail(begun, p) else begun
  }

  /** The others keep their order, which is that of when they were last seen. */
  lemma {:induction false} OthersKeepOrder(nodes: seq<Peer>, p: Peer, alive: bool) returns (a: seq<Peer>, known: seq<Peer>, b: seq<Peer>)
    ensures nodes == a + known + b && |known| <= 1 && (forall q | q in known :: q.id == p.id)
    ensures known == [] ==> forall q | q in nodes :: q.id != p.id
    ensures InsertedInto(nodes, p, alive)
         == if known != [] then known + a + b
            else if |nodes| < K then [p] + nodes
            else if alive then nodes else [p] + nodes[..|nodes| - 1]
  {
    var pos := Position(nodes, p.id);
    a, known, b := nodes, [], [];
    if pos.Some? { a, known, b := nodes[..pos.value], [nodes[pos.value]], nodes[pos.value + 1..]; }
  }

  /**
   A seen peer is in front of its bucket afterwards, at its old address if it was known, unless the bucket is
   full of others and the oldest of them answers; and nobody else goes, the oldest that does not answer aside.
   */
  lemma {:induction false} InsertOutcome(nodes: seq<Peer>, p: Peer, alive: bool)
    requires DistinctIds(nodes) && |nodes| <= K
    ensures var r := InsertedInto(nodes, p, alive);
      var full := |nodes| == K && forall q | q in nodes :: q.id != p.id;
      && (if full && alive then r == nodes else r != [] && r[0].id == p.id)
      && (r != [] && (exists q :: q in nodes && q.id == p.id) ==> r[0] in nodes)
      && (forall q | q in nodes && !(full && !alive && q == nodes[K - 1]) :: q in r)
      && (forall q | q in r :: q in nodes || q == p)
      && (full && !alive ==> nodes[K - 1] !in r)
  {
    var pos := Position(nodes, p.id);
    if pos.Some? {
      var i := pos.value;
      assert nodes == nodes[..i] + [nodes[i]] + nodes[i + 1..];
    } else if |nodes| == K {
      assert nodes == nodes[..K - 1] + [nodes[K - 1]];
    }
  }

  // -------------------------------------------------------------- lookups

  function AllPeers(buckets: Buckets, n: nat): seq<Peer>
    requires n <= |buckets|
  {
    if n == 0 then [] else AllPeers(buckets, n - 1) + buckets[n - 1]
  }

  function DistanceTo(target: NodeID): Peer -> nat {
    (p: Peer) => Dist(p.id, target)
  }

  function ByDistance(target: NodeID, peers: seq<Peer>): (r: seq<Peer>) {
    SortBy(DistanceTo(target), peers)
  }

  function Closest(target: NodeID, peers: seq<Peer>, k: nat): seq<Peer> {
    var sorted := ByDistance(target, peers);
    if |sorted| <= k then sorted else sorted[..k]
  }

  /** The peers of the first `n` buckets, each as often as it is there. */
  ghost function PeersOf(buckets: Buckets, n: nat): multiset<Peer>
    requires n <= |buckets|
  {
    if n == 0 then multiset{} else PeersOf(buckets, n - 1) + multiset(buckets[n - 1])
  }

  ghost function PeerCount(buckets: Buckets, n: nat): nat
    requires n <= |buckets|
  {
    if n == 0 then 0 else PeerCount(buckets, n - 1) + |buckets[n - 1]|
  }

  ghost predicate InTable(buckets: Buckets, p: Peer) {
    exists i :: 0 <= i < |buckets| && p in buckets[i]
  }

  lemma {:induction false} InSomeBucket(buckets: Buckets, n: nat, p: Peer)
    requires n <= |buckets|
    ensures p in PeersOf(buckets, n) <==> exists i :: 0 <= i < n && p in buckets[i]
  {
    if n > 0 { InSomeBucket(buckets, n - 1, p); }
  }

  lemma {:induction false} AllPeersOf(buckets: Buckets, n: nat)
    requires n <= |buckets|
    ensures multiset(AllPeers(buckets, n)) == PeersOf(buckets, n) && |AllPeers(buckets, n)| == PeerCount(buckets, n)
  {
    if n > 0 { AllPeersOf(buckets, n - 1); }
  }

  lemma {:induction false} SplitOfTable(buckets: Buckets, r: seq<Peer>, rest: seq<Peer>, p: Peer)
    requires |buckets| == NBUCKETS && multiset(r) + multiset(rest) == PeersOf(buckets, NBUCKETS)
    ensures p in r || p in rest <==> InTable(buckets, p)
  {
    InSomeBucket(buckets, NBUCKETS, p);
    assert p in multiset(r) + multiset(rest) <==> p in multiset(r) || p in multiset(rest);
  }

  /** The nearest of all buckets together, and what is left out of them. */
  lemma {:induction false} ClosestOfTable(target: NodeID, buckets: Buckets, k: nat, r: seq<Peer>) returns (rest: seq<Peer>)
    requires |buckets| == NBUCKETS && r == Closest(target, AllPeers(buckets, NBUCKETS), k)
    ensures SortedBy(DistanceTo(target), r)
    ensures multiset(r) + multiset(rest) == PeersOf(buckets, NBUCKETS)
    ensures |r| == if PeerCount(buckets, NBUCKETS) < k then PeerCount(buckets, NBUCKETS) else k
    ensures forall p :: p in r || p in rest <==> InTable(buckets, p)
    ensures forall p, q | p in r && q in rest :: DistanceTo(target)(p) <= DistanceTo(target)(q)
  {
    var r', rest' := ClosestIsNearest(target, AllPeers(buckets, NBUCKETS), k);
    rest := rest';
    AllPeersOf(buckets, NBUCKETS);
    forall p ensures p in r || p in rest <==> InTable(buckets, p) { SplitOfTable(buckets, r, rest, p); }
  }

  /** `Closest` returns k peers if there are that many, nearest first, and leaves out none nearer than one it returns. */
  lemma {:induction false} ClosestIsNearest(target: NodeID, peers: seq<Peer>, k: nat) returns (r: seq<Peer>, rest: seq<Peer>)
    ensures r == Closest(target, peers, k) && |r| == if |peers| < k then |peers| else k
    ensures SortedBy(DistanceTo(target), r)
    ensures multiset(r) + multiset(rest) == multiset(peers)
    ensures forall p, q | p in r && q in rest :: DistanceTo(target)(p) <= DistanceTo(target)(q)
  {
    var sorted := ByDistance(target, peers);
    r := Closest(target, peers, k);
    rest := sorted[|r|..];
    assert sorted == r + rest;
    SortBySorted(DistanceTo(target), peers);
    PrefixNearest(DistanceTo(target), sorted, |r|);
  }

  lemma {:induction false} PrefixNearest(key: Peer -> nat, sorted: seq<Peer>, m: nat)
    requires m <= |sorted| && SortedBy(key, sorted)
    ensures SortedBy(key, sorted[..m])
    ensures forall p, q | p in sorted[..m] && q in sorted[m..] :: key(p) <= key(q)
  {
    forall p, q | p in sorted[..m] && q in sorted[m..] ensures key(p) <= key(q) {
      var i :| 0 <= i < m && sorted[i] == p;
      var j :| m <= j < |sorted| && sorted[j] == q;
    }
  }

  class RoutingTable {
    const localId: NodeID
    var buckets: Buckets

    ghost predicate Valid()
      reads this
    {
      TableOk(localId, buckets)
    }

    constructor (localId: NodeID)
      ensures Valid() && this.localId == localId && TableDistinct(buckets)
      ensures forall i | 0 <= i < NBUCKETS :: buckets[i] == []
    {
      this.localId := localId;
      buckets := seq(NBUCKETS, i => []);
    }

    /** The part of `insert` before the ping: returns the peer to ping, if the bucket is full. */
    method InsertBegin(p: Peer) returns (candidate: Option<Peer>)
      requires Valid()
      modifies this
      ensures Valid()
      ensures buckets == Apply(localId, old(buckets), Begin(p)) && candidate == Candidate(localId, old(buckets), p)
    {
      StepKeepsTable(localId, buckets, Begin(p));
      if p.id == localId { return None; }
      var idx := BucketIndex(Xor(localId, p.id));
      var (nodes, tail) := BucketInsert(buckets[idx], p);
      buckets := buckets[idx := nodes];
      candidate := tail;
    }

    /** The part after the ping of a candidate: a dead tail gives way, whichever peer the tail is by now. */
    method InsertFinish(p: Peer, alive: bool)
      requires Valid() && p.id != localId
      modifies this
      ensures Valid() && buckets == Apply(localId, old(buckets), Finish(p, alive))
    {
      StepKeepsTable(localId, buckets, Finish(p, alive));
      if !alive {
        var idx := BucketIndex(Xor(localId, p.id));
        buckets := buckets[idx := ReplaceTail(buckets[idx], p)];
      }
    }

    /** A whole insert with nothing in between; `alive` is the ping's answer. */
    method Insert(p: Peer, alive: bool)
      requires Valid()
      modifies this
      ensures Valid() && (old(TableDistinct(buckets)) ==> TableDistinct(buckets))
      ensures var begun := Apply(localId, old(buckets), Begin(p));
        buckets == if Candidate(localId, old(buckets), p).Some? then Apply(localId, begun, Finish(p, alive)) else begun
      ensures p.id != localId ==> var i := Slot(localId, p.id);
        buckets == old(buckets)[i := InsertedInto(old(buckets)[i], p, alive)]
    {
      if TableDistinct(buckets) { InsertKeepsDistinct(localId, buckets, p, alive); }
      var candidate := InsertBegin(p);
      if candidate.Some? { InsertFinish(p, alive); }
    }

    method RemovePeer(id: NodeID)
      requires Valid()
      modifies this
      ensures Valid() && buckets == Apply(localId, old(buckets), Remove(id))
      ensures forall i, p | 0 <= i < NBUCKETS && p in buckets[i] :: p.id != id
    {
      StepKeepsTable(localId, buckets, Remove(id));
      var idx := BucketIndex(Xor(localId, id));
      forall i, p | 0 <= i < NBUCKETS && i != idx && p in buckets[i] ensures p.id != id {
        assert BucketOk(localId, buckets[i], i);
      }
      buckets := buckets[idx := RemoveId(buckets[idx], id)];
    }

    /**
     The `k` nearest peers of the whole table, all of them if there are fewer, nearest first; `rest` are the
     others.
     */
    method GetClosest(target: NodeID, k: nat) returns (r: seq<Peer>, ghost rest: seq<Peer>)
      requires Valid()
      ensures r == Closest(target, AllPeers(buckets, NBUCKETS), k)
      ensures SortedBy(DistanceTo(target), r)
      ensures multiset(r) + multiset(rest) == PeersOf(buckets, NBUCKETS)
      ensures |r| == if PeerCount(buckets, NBUCKETS) < k then PeerCount(buckets, NBUCKETS) else k
      ensures forall p :: p in r || p in rest <==> InTable(buckets, p)
      ensures forall p, q | p in r && q in rest :: DistanceTo(target)(p) <= DistanceTo(target)(q)
    {
      var all: seq<Peer> := [];
      for i := 0 to |buckets|
        invariant all == AllPeers(buckets, i)
      {
        all := all + buckets[i];
      }
      all := ByDistance(target, all);
      r := if |all| <= k then all else all[..k];
      rest := ClosestOfTable(target, buckets, k, r);
    }
  }
}
