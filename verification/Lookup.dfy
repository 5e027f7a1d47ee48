/** The iterative Kademlia lookup. */
module Lookup {
  import opened Basics
  import opened Hashing
  import opened Distance
  import opened Sorting
  import opened RoutingTable

  /** Peers queried per round. */
  const ALPHA: nat := 3

  /** What a peer answers to the `n`-th query; `None` if it does not. */
  type Replies = (nat, Peer) -> Option<seq<Peer>>

  function Ids(s: seq<Peer>): set<NodeID> {
    set p | p in s :: p.id
  }

  lemma {:induction false} IdsAppend(a: seq<Peer>, b: seq<Peer>)
    ensures Ids(a + b) == Ids(a) + Ids(b)
  {
  }

  function IdDist(target: NodeID): NodeID -> nat {
    (id: NodeID) => Dist(id, target)
  }

  ghost predicate Injective(d: NodeID -> nat) {
    forall x, y :: d(x) == d(y) ==> x == y
  }

  lemma {:induction false} IdDistInjective(target: NodeID)
    ensures Injective(IdDist(target))
  {
    forall x: NodeID, y: NodeID | IdDist(target)(x) == IdDist(target)(y) ensures x == y { DistInjective(x, y, target); }
  }

  function ByDist(d: NodeID -> nat): Peer -> nat {
    (p: Peer) => d(p.id)
  }

  /** `r` is the K ids of `ids` nearest by `d`, nearest first, each once. */
  ghost predicate Nearest(d: NodeID -> nat, r: seq<Peer>, ids: set<NodeID>) {
    && |r| <= K
    && (forall i, j | 0 <= i < j < |r| :: d(r[i].id) < d(r[j].id))
    && (forall p | p in r :: p.id in ids)
    && forall x | x in ids && x !in Ids(r) :: |r| == K && forall p | p in r :: d(p.id) < d(x)
  }

  /** `Vec::dedup_by_key`: of neighbours with the same id the first stays. */
  function Dedup(s: seq<Peer>): (r: seq<Peer>)
    ensures |r| <= |s| && (s != [] ==> r != [] && r[0] == s[0])
    decreases |s|
  {
    if |s| <= 1 then s
    else if s[0].id == s[1].id then Dedup([s[0]] + s[2..])
    else [s[0]] + Dedup(s[1..])
  }

  lemma {:induction false} DedupStrict(d: NodeID -> nat, s: seq<Peer>)
    requires Injective(d) && SortedBy(ByDist(d), s)
    ensures forall i, j | 0 <= i < j < |Dedup(s)| :: d(Dedup(s)[i].id) < d(Dedup(s)[j].id)
    ensures Ids(Dedup(s)) == Ids(s)
    decreases |s|
  {
    if |s| > 1 {
      assert ByDist(d)(s[0]) <= ByDist(d)(s[1]);
      if s[0].id == s[1].id {
        var t := [s[0]] + s[2..];
        forall i, j | 0 <= i < j < |t| ensures ByDist(d)(t[i]) <= ByDist(d)(t[j]) {
          assert ByDist(d)(s[if i == 0 then 0 else i + 1]) <= ByDist(d)(s[j + 1]);
        }
        DedupStrict(d, t);
        assert s == [s[0], s[1]] + s[2..];
        assert Ids(s) == Ids(t);
      } else {
        var t := s[1..];
        forall i, j | 0 <= i < j < |t| ensures ByDist(d)(t[i]) <= ByDist(d)(t[j]) {
          assert ByDist(d)(s[i + 1]) <= ByDist(d)(s[j + 1]);
        }
        DedupStrict(d, t);
        assert s == [s[0]] + t;
        IdsAppend([s[0]], t);
        IdsAppend([s[0]], Dedup(t));
        forall j | 0 <= j < |Dedup(t)| ensures d(s[0].id) < d(Dedup(t)[j].id) {
          if j > 0 { assert d(Dedup(t)[0].id) < d(Dedup(t)[j].id); }
        }
      }
    }
  }

  /** Sort by distance, drop repeated ids, keep K. */
  function MergeNearest(d: NodeID -> nat, all: seq<Peer>): seq<Peer> {
    var distinct := Dedup(SortBy(ByDist(d), all));
    if |distinct| <= K then distinct else distinct[..K]
  }

  lemma {:induction false} MergeIsNearest(d: NodeID -> nat, all: seq<Peer>)
    requires Injective(d)
    ensures Nearest(d, MergeNearest(d, all), Ids(all))
  {
    var sorted := SortBy(ByDist(d), all);
    SortBySorted(ByDist(d), all);
    forall p ensures p in sorted <==> p in all { assert p in multiset(sorted) <==> p in multiset(all); }
    DedupStrict(d, sorted);
    assert Ids(sorted) == Ids(all);
    Truncated(d, Dedup(sorted), MergeNearest(d, all));
  }

  lemma {:induction false} Truncated(d: NodeID -> nat, s: seq<Peer>, r: seq<Peer>)
    requires forall i, j | 0 <= i < j < |s| :: d(s[i].id) < d(s[j].id)
    requires r == if |s| <= K then s else s[..K]
    ensures Nearest(d, r, Ids(s))
  {
    forall x | x in Ids(s) && x !in Ids(r) ensures |r| == K && forall p | p in r :: d(p.id) < d(x) {
      var q :| q in s && q.id == x;
      var j :| 0 <= j < |s| && s[j] == q;
      assert forall i | 0 <= i < |r| :: r[i] in r;
    }
  }

  lemma {:induction false} IdsCard(d: NodeID -> nat, r: seq<Peer>)
    requires forall i, j | 0 <= i < j < |r| :: d(r[i].id) < d(r[j].id)
    ensures |Ids(r)| == |r|
  {
    if r != [] {
      var n := |r| - 1;
      IdsCard(d, r[..n]);
      assert r == r[..n] + [r[n]];
      IdsAppend(r[..n], [r[n]]);
      assert Ids([r[n]]) == {r[n].id};
    }
  }

  /** Nearest of the nearest and some more is nearest of everything. */
  lemma {:induction false} NearestStep(d: NodeID -> nat, r: seq<Peer>, ids: set<NodeID>, r': seq<Peer>, more: set<NodeID>)
    requires Nearest(d, r, ids) && Nearest(d, r', Ids(r) + more)
    ensures Nearest(d, r', ids + more)
  {
    forall x | x in ids + more && x !in Ids(r') ensures |r'| == K && forall p | p in r' :: d(p.id) < d(x) {
      if x !in Ids(r) + more {
        IdsCard(d, r);
        IdsCard(d, r');
        if Ids(r) <= Ids(r') { SubsetCard(Ids(r), Ids(r')); }
        forall p | p in r' ensures d(p.id) < d(x) {
          if p.id !in Ids(r) {
            assert p.id in Ids(r');
            var y :| y in Ids(r) && y !in Ids(r');
            var q :| q in r && q.id == y;
          } else {
            var q :| q in r && q.id == p.id;
          }
        }
      }
    }
  }

  /** The empty list is nearest of nothing only. */
  lemma {:induction false} NearestEmpty(d: NodeID -> nat, ids: set<NodeID>)
    ensures Nearest(d, [], ids) <==> ids == {}
  {
    if ids != {} { var x :| x in ids; assert x !in Ids([]); }
  }

  // -------------------------------------------------------------- the loop

  /** All peers named in the answers of a batch, in order; unanswered queries name none. */
  function Heard(replies: Replies, q: nat, batch: seq<Peer>): seq<Peer>
    decreases |batch|
  {
    if batch == [] then []
    else
      var n := |batch| - 1;
      Heard(replies, q, batch[..n]) + Answered(replies(q + n, batch[n]))
  }

  function Answered(r: Option<seq<Peer>>): seq<Peer> {
    if r.Some? then r.value else []
  }

  /** Heard of is who is named in the answer to some query of the batch, and nobody else. */
  lemma {:induction false} HeardExactly(replies: Replies, q: nat, batch: seq<Peer>, p: Peer)
    ensures p in Heard(replies, q, batch) <==>
      exists i: nat, n: nat :: i < |batch| && n == q + i && replies(n, batch[i]).Some? && p in replies(n, batch[i]).value
    decreases |batch|
  {
    if batch != [] {
      var n := |batch| - 1;
      HeardExactly(replies, q, batch[..n], p);
    }
  }

  function Unvisited(s: seq<Peer>, visited: set<NodeID>): seq<Peer> {
    if s == [] then []
    else if s[0].id in visited then Unvisited(s[1..], visited)
    else [s[0]] + Unvisited(s[1..], visited)
  }

  lemma {:induction false} UnvisitedExact(s: seq<Peer>, visited: set<NodeID>)
    ensures forall p :: p in Unvisited(s, visited) <==> p in s && p.id !in visited
  {
    if s != [] {
      UnvisitedExact(s[1..], visited);
      assert s == [s[0]] + s[1..];
    }
  }

  method KeepUnvisited(nodes: seq<Peer>, visited: set<NodeID>) returns (news: seq<Peer>)
    ensures news == Unvisited(nodes, visited)
  {
    news := [];
    for j := 0 to |nodes|
      invariant news + Unvisited(nodes[j..], visited) == Unvisited(nodes, visited)
    {
      assert nodes[j..][1..] == nodes[j + 1..];
      if nodes[j].id !in visited { news := news + [nodes[j]]; }
    }
  }

  /** Query the batch and keep what is new. */
  method Gather(replies: Replies, q: nat, batch: seq<Peer>, visited: set<NodeID>) returns (news: seq<Peer>)
    ensures news == Unvisited(Heard(replies, q, batch), visited)
  {
    news := [];
    for i := 0 to |batch|
      invariant news == Unvisited(Heard(replies, q, batch[..i]), visited)
    {
      var r := replies(q + i, batch[i]);
      var kept := KeepUnvisited(Answered(r), visited);
      HeardMore(replies, q, batch, i);
      UnvisitedAppend(Heard(replies, q, batch[..i]), Answered(r), visited);
      news := news + kept;
    }
    assert batch[..|batch|] == batch;
  }

  lemma {:induction false} HeardMore(replies: Replies, q: nat, batch: seq<Peer>, i: nat)
    requires i < |batch|
    ensures Heard(replies, q, batch[..i + 1]) == Heard(replies, q, batch[..i]) + Answered(replies(q + i, batch[i]))
  {
    assert batch[..i + 1][..i] == batch[..i];
  }

  lemma {:induction false} UnvisitedAppend(s: seq<Peer>, t: seq<Peer>, visited: set<NodeID>)
    ensures Unvisited(s + t, visited) == Unvisited(s, visited) + Unvisited(t, visited)
  {
    if s == [] {
      assert s + t == t;
    } else {
      assert (s + t)[1..] == s[1..] + t;
      UnvisitedAppend(s[1..], t, visited);
    }
  }

  function FirstFew(s: seq<Peer>): seq<Peer> {
    if |s| <= ALPHA then s else s[..ALPHA]
  }

  /** The first ALPHA peers of the queue not yet visited. */
  method NextBatch(queue: seq<Peer>, visited: set<NodeID>) returns (batch: seq<Peer>)
    ensures batch == FirstFew(Unvisited(queue, visited))
  {
    batch := [];
    for i := 0 to |queue|
      invariant batch == FirstFew(Unvisited(queue[..i], visited))
    {
      assert queue == queue[..i] + queue[i..] && queue[..i + 1] == queue[..i] + [queue[i]];
      UnvisitedAppend(queue[..i], queue[i..], visited);
      UnvisitedAppend(queue[..i], [queue[i]], visited);
      if |batch| >= ALPHA { return; }
      if queue[i].id !in visited {
        batch := batch + [queue[i]];
      }
    }
    assert queue[..|queue|] == queue;
  }

  lemma {:induction false} UnvisitedDistinct(s: seq<Peer>, visited: set<NodeID>)
    requires DistinctIds(s)
    ensures DistinctIds(Unvisited(s, visited))
  {
    if s != [] {
      UnvisitedDistinct(s[1..], visited);
      UnvisitedExact(s[1..], visited);
      var r := Unvisited(s[1..], visited);
      forall j | 0 <= j < |r| ensures r[j].id != s[0].id {
        assert r[j] in s[1..];
        var k :| 1 <= k < |s| && s[k] == r[j];
      }
    }
  }

  lemma {:induction false} AllUnvisited(s: seq<Peer>, visited: set<NodeID>)
    requires forall p | p in s :: p.id !in visited
    ensures Unvisited(s, visited) == s
  {
    if s != [] { AllUnvisited(s[1..], visited); }
  }

  /** What the choice of a batch means for the rest of the round. */
  lemma {:induction false} BatchFacts(queue: seq<Peer>, visited: set<NodeID>, batch: seq<Peer>)
    requires batch == FirstFew(Unvisited(queue, visited))
    ensures |batch| <= ALPHA && forall p | p in batch :: p in queue && p.id !in visited
    ensures batch == [] ==> forall p | p in queue :: p.id in visited
    ensures DistinctIds(queue) ==> DistinctIds(batch)
    ensures (forall p | p in queue :: p.id !in visited) ==> batch == queue[..if |queue| < ALPHA then |queue| else ALPHA]
  {
    UnvisitedExact(queue, visited);
    if DistinctIds(queue) { UnvisitedDistinct(queue, visited); }
    if forall p | p in queue :: p.id !in visited { AllUnvisited(queue, visited); }
  }

  function Byte(i: nat): bv8
    requires i < 256
  {
    i as bv8
  }

  lemma {:induction false} ByteOnto(b: bv8)
    ensures 0 <= b as int < 256 && Byte(b as int) == b
  {
  }

  /** The id space is finite: all byte strings of length `n`. */
  ghost function AllBytes(n: nat): (r: set<Bytes>)
    ensures forall s: Bytes :: |s| == n ==> s in r
  {
    if n == 0 then {[]}
    else
      var tails := AllBytes(n - 1);
      var r := set i: nat, t | 0 <= i < 256 && t in tails :: [Byte(i)] + t;
      assert forall s: Bytes :: |s| == n ==> s in r by {
        forall s: Bytes | |s| == n ensures s in r {
          ByteOnto(s[0]);
          assert s == [Byte(s[0] as int)] + s[1..];
        }
      }
      r
  }

  /** The first round learns of a peer that is neither local nor among those it queries. */
  predicate FirstRoundFinds(localId: NodeID, seeds: seq<Peer>, replies: Replies) {
    var batch := seeds[..if |seeds| < ALPHA then |seeds| else ALPHA];
    Unvisited(Heard(replies, 0, batch), {localId} + Ids(batch)) != []
  }

  /** What is known after a round: nothing new but the unvisited peers among those heard of. */
  lemma {:induction false} SeenAfter(seen: set<NodeID>, localId: NodeID, visited: set<NodeID>, heard: seq<Peer>)
    requires localId in visited && visited - {localId} <= seen
    ensures seen + Ids(heard) - {localId} == seen - {localId} + Ids(Unvisited(heard, visited))
  {
    UnvisitedExact(heard, visited);
    forall x | x in seen + Ids(heard) - {localId} ensures x in seen - {localId} + Ids(Unvisited(heard, visited)) {
      if x !in seen {
        var p :| p in heard && p.id == x;
        assert p in Unvisited(heard, visited);
      }
    }
  }

  /** The merge of a later round: the queue adds nothing to `closest` but the news. */
  lemma {:induction false} MergeLater(d: NodeID -> nat, closest: seq<Peer>, queue: seq<Peer>, news: seq<Peer>, ids: set<NodeID>)
    requires Injective(d) && Nearest(d, closest, ids) && forall p | p in queue :: p in closest
    ensures Nearest(d, MergeNearest(d, closest + (queue + news)), ids + Ids(news))
  {
    MergeIsNearest(d, closest + (queue + news));
    assert Ids(closest + (queue + news)) == Ids(closest) + Ids(news);
    NearestStep(d, closest, ids, MergeNearest(d, closest + (queue + news)), Ids(news));
  }

  lemma {:induction false} MergeFirst(d: NodeID -> nat, queue: seq<Peer>, news: seq<Peer>)
    requires Injective(d)
    ensures Nearest(d, MergeNearest(d, [] + (queue + news)), Ids(queue) + Ids(news))
  {
    MergeIsNearest(d, [] + (queue + news));
    assert [] + (queue + news) == queue + news;
    IdsAppend(queue, news);
  }

  lemma {:induction false} StrictDistinct(d: NodeID -> nat, s: seq<Peer>, visited: set<NodeID>)
    requires forall i, j | 0 <= i < j < |s| :: d(s[i].id) < d(s[j].id)
    ensures DistinctIds(Unvisited(s, visited))
  {
    if s != [] {
      StrictDistinct(d, s[1..], visited);
      UnvisitedExact(s[1..], visited);
      var r := Unvisited(s[1..], visited);
      forall j | 0 <= j < |r| ensures r[j].id != s[0].id {
        assert r[j] in s[1..];
        var k :| 1 <= k < |s| && s[k] == r[j];
      }
    }
  }

  /** Asking a batch of peers not visited before keeps the list of queries free of repeats. */
  lemma {:induction false} AskedOnce(asked: seq<Peer>, batch: seq<Peer>, visited: set<NodeID>)
    requires DistinctIds(asked) && (forall p | p in asked :: p.id in visited)
    requires DistinctIds(batch) && forall p | p in batch :: p.id !in visited
    ensures DistinctIds(asked + batch)
  {
    var all := asked + batch;
    forall i, j | 0 <= i < j < |all| ensures all[i].id != all[j].id {
      if i < |asked| <= j { assert asked[i] in asked && batch[j - |asked|] in batch; }
    }
  }

  lemma {:induction false} HeardAppend(replies: Replies, q: nat, a: seq<Peer>, b: seq<Peer>)
    ensures Heard(replies, q, a + b) == Heard(replies, q, a) + Heard(replies, q + |a|, b)
    decreases |b|
  {
    if b == [] {
      assert a + b == a;
    } else {
      var n := |b| - 1;
      var last := Answered(replies(q + |a| + n, b[n]));
      HeardAppend(replies, q, a, b[..n]);
      HeardAll(replies, q, a, b, last);
      HeardLast(replies, q + |a|, b, last);
      Associative(Heard(replies, q, a), Heard(replies, q + |a|, b[..n]), last);
    }
  }

  lemma {:induction false} HeardLast(replies: Replies, q: nat, b: seq<Peer>, last: seq<Peer>)
    requires b != [] && last == Answered(replies(q + |b| - 1, b[|b| - 1]))
    ensures Heard(replies, q, b) == Heard(replies, q, b[..|b| - 1]) + last
  {
  }

  lemma {:induction false} HeardAll(replies: Replies, q: nat, a: seq<Peer>, b: seq<Peer>, last: seq<Peer>)
    requires b != [] && last == Answered(replies(q + |a| + |b| - 1, b[|b| - 1]))
    ensures Heard(replies, q, a + b) == Heard(replies, q, a + b[..|b| - 1]) + last
  {
    var s := a + b;
    assert s[|s| - 1] == b[|b| - 1] && s[..|s| - 1] == a + b[..|b| - 1];
    HeardLast(replies, q, s, last);
  }

  /** Every id met: those of the seeds and of all answers to the peers asked so far. */
  function Seen(seeds: seq<Peer>, replies: Replies, asked: seq<Peer>): set<NodeID> {
    Ids(seeds) + Ids(Heard(replies, 0, asked))
  }

  lemma {:induction false} HeardIds(replies: Replies, q: nat, a: seq<Peer>, b: seq<Peer>)
    ensures Ids(Heard(replies, q, a + b)) == Ids(Heard(replies, q, a)) + Ids(Heard(replies, q + |a|, b))
  {
    HeardAppend(replies, q, a, b);
    IdsAppend(Heard(replies, q, a), Heard(replies, q + |a|, b));
  }

  lemma {:induction false} SeenMore(seeds: seq<Peer>, replies: Replies, asked: seq<Peer>, batch: seq<Peer>)
    ensures Seen(seeds, replies, asked + batch) == Seen(seeds, replies, asked) + Ids(Heard(replies, |asked|, batch))
  {
    HeardIds(replies, 0, asked, batch);
  }

  lemma {:induction false} IdSpace() returns (space: set<NodeID>)
    ensures forall id: NodeID :: id in space
  {
    var n: nat := 32;
    space := set s | s in AllBytes(n) && |s| == n;
  }

  lemma {:induction false} BatchGrows(space: set<NodeID>, visited: set<NodeID>, batch: seq<Peer>)
    requires forall id: NodeID :: id in space
    requires batch != [] && forall p | p in batch :: p.id !in visited
    ensures space - (visited + Ids(batch)) < space - visited
  {
    assert batch[0].id in Ids(batch) && batch[0].id in space;
  }

  /** What holds between rounds, first or later. */
  ghost predicate Between(localId: NodeID, seen: set<NodeID>, visited: set<NodeID>, queue: seq<Peer>, closest: seq<Peer>) {
    && localId in visited && visited - {localId} <= seen
    && Ids(queue) <= seen - {localId} && Ids(closest) <= seen - {localId}
  }

  /** A later round starts with the nearest ids so far, and a queue of those among them not visited yet. */
  ghost predicate Settled(d: NodeID -> nat, ids: set<NodeID>, visited: set<NodeID>, queue: seq<Peer>, closest: seq<Peer>) {
    Nearest(d, closest, ids) && queue == Unvisited(closest, visited)
  }

  /** The batch joins the visited, the answers join the seen. */
  lemma {:induction false} RoundSeen(localId: NodeID, seen: set<NodeID>, visited: set<NodeID>,
                                     queue: seq<Peer>, closest: seq<Peer>, batch: seq<Peer>, heard: seq<Peer>)
    requires Between(localId, seen, visited, queue, closest) && forall p | p in batch :: p in queue
    ensures var news := Unvisited(heard, visited + Ids(batch));
      Between(localId, seen + Ids(heard), visited + Ids(batch), queue + news, closest)
    ensures seen + Ids(heard) - {localId} == seen - {localId} + Ids(Unvisited(heard, visited + Ids(batch)))
  {
    forall id | id in Ids(batch) ensures id in Ids(queue) { var p :| p in batch && p.id == id; }
    SeenAfter(seen, localId, visited + Ids(batch), heard);
    IdsAppend(queue, Unvisited(heard, visited + Ids(batch)));
  }

  /** The merge finds the nearest of what has been seen. */
  lemma {:induction false} RoundMerge(d: NodeID -> nat, localId: NodeID, seen: set<NodeID>, visited: set<NodeID>,
                                      queue: seq<Peer>, closest: seq<Peer>, news: seq<Peer>, first: bool)
    requires Injective(d) && Between(localId, seen, visited, queue, closest)
    requires first ==> closest == [] && Ids(queue) == seen
    requires !first ==> Settled(d, seen - {localId}, visited, queue, closest)
    ensures Nearest(d, MergeNearest(d, closest + (queue + news)), seen - {localId} + Ids(news))
  {
    if first {
      MergeFirst(d, queue, news);
      assert seen - {localId} == seen;
    } else {
      UnvisitedExact(closest, visited);
      MergeLater(d, closest, queue, news, seen - {localId});
    }
  }

  /** The next queue, taken from the merged list, is again between rounds. */
  lemma {:induction false} RoundQueue(d: NodeID -> nat, localId: NodeID, seen: set<NodeID>, visited: set<NodeID>, merged: seq<Peer>)
    requires localId in visited && visited - {localId} <= seen && Nearest(d, merged, seen - {localId})
    ensures Between(localId, seen, visited, Unvisited(merged, visited), merged)
    ensures DistinctIds(Unvisited(merged, visited))
  {
    UnvisitedExact(merged, visited);
    StrictDistinct(d, merged, visited);
  }

  /** The loop invariant. */
  ghost predicate Open(d: NodeID -> nat, localId: NodeID, seeds: seq<Peer>, replies: Replies, first: bool,
                       queue: seq<Peer>, closest: seq<Peer>, visited: set<NodeID>, asked: seq<Peer>) {
    && visited == {localId} + Ids(asked) && localId !in Ids(asked)
    && Between(localId, Seen(seeds, replies, asked), visited, queue, closest)
    && (first ==> queue == seeds && closest == [] && asked == [])
    && (!first ==>
          && FirstRoundFinds(localId, seeds, replies)
          && Settled(d, Seen(seeds, replies, asked) - {localId}, visited, queue, closest))
    && (DistinctIds(seeds) ==> DistinctIds(asked) && DistinctIds(queue))
  }

  /**
   What a lookup promises about its result and the peers it asked, in order.  It returns the K nearest of
   all ids met, without the local one, exactly when there were no seeds or the first round learnt of somebody
   new, and nothing otherwise; it asked only peers it had met, never the local one, none twice if the seeds
   are distinct; and it stopped because everybody returned has been asked or the last answers told nothing new.
   */
  ghost predicate Answer(d: NodeID -> nat, localId: NodeID, seeds: seq<Peer>, replies: Replies, closest: seq<Peer>, asked: seq<Peer>) {
    var seen := Seen(seeds, replies, asked);
    && (Nearest(d, closest, seen - {localId}) <==> seeds == [] || FirstRoundFinds(localId, seeds, replies))
    && (seeds != [] && !FirstRoundFinds(localId, seeds, replies) ==> closest == [])
    && localId !in Ids(closest) + Ids(asked) && Ids(asked) <= seen
    && (DistinctIds(seeds) ==> DistinctIds(asked))
    && (Ids(closest) <= Ids(asked) || LastAnswersOld(localId, replies, asked))
  }

  /** The answers of the last round, of at most ALPHA peers, name only peers asked already or the local one. */
  ghost predicate LastAnswersOld(localId: NodeID, replies: Replies, asked: seq<Peer>) {
    exists n: nat :: n < |asked| <= n + ALPHA && Ids(Heard(replies, n, asked[n..])) <= Ids(asked) + {localId}
  }

  lemma {:induction false} NobodyLeft(d: NodeID -> nat, localId: NodeID, seeds: seq<Peer>, replies: Replies, first: bool,
                                      queue: seq<Peer>, closest: seq<Peer>, visited: set<NodeID>, asked: seq<Peer>)
    requires Open(d, localId, seeds, replies, first, queue, closest, visited, asked)
    requires localId !in Ids(seeds) && forall p | p in queue :: p.id in visited
    ensures Answer(d, localId, seeds, replies, closest, asked)
  {
    HeadId(seeds);
    NearestEmpty(d, Seen(seeds, replies, asked) - {localId});
    UnvisitedExact(closest, visited);
  }

  lemma {:induction false} HeadId(s: seq<Peer>)
    ensures s != [] ==> s[0].id in Ids(s)
  {
  }

  /** A round: a batch of the queue is asked, and `heard` is what it answers. */
  ghost predicate RoundOf(seeds: seq<Peer>, replies: Replies, first: bool, queue: seq<Peer>, visited: set<NodeID>,
                          asked: seq<Peer>, batch: seq<Peer>, heard: seq<Peer>) {
    && 0 < |batch| <= ALPHA && (forall p | p in batch :: p in queue && p.id !in visited)
    && (DistinctIds(queue) ==> DistinctIds(batch))
    && (first ==> batch == seeds[..if |seeds| < ALPHA then |seeds| else ALPHA])
    && heard == Heard(replies, |asked|, batch)
  }

  /** The peers asked so far, after a round. */
  lemma {:induction false} AskedAfter(localId: NodeID, visited: set<NodeID>, asked: seq<Peer>, batch: seq<Peer>)
    requires visited == {localId} + Ids(asked) && localId !in Ids(asked) && forall p | p in batch :: p.id !in visited
    ensures visited + Ids(batch) == {localId} + Ids(asked + batch) && localId !in Ids(asked + batch)
    ensures DistinctIds(asked) && DistinctIds(batch) ==> DistinctIds(asked + batch)
  {
    IdsAppend(asked, batch);
    if DistinctIds(asked) && DistinctIds(batch) { AskedOnce(asked, batch, visited); }
  }

  lemma {:induction false} FirstRound(localId: NodeID, seeds: seq<Peer>, replies: Replies, visited: set<NodeID>, asked: seq<Peer>,
                                      batch: seq<Peer>, heard: seq<Peer>)
    requires asked == [] && visited == {localId} + Ids(asked)
    requires batch == seeds[..if |seeds| < ALPHA then |seeds| else ALPHA] && heard == Heard(replies, |asked|, batch)
    ensures FirstRoundFinds(localId, seeds, replies) <==> Unvisited(heard, visited + Ids(batch)) != []
  {
    assert visited == {localId};
  }

  /** What a round that learns nothing new leaves: the ids met, the peers asked, and what ends the lookup. */
  lemma {:induction false} NothingChanges(localId: NodeID, seeds: seq<Peer>, replies: Replies, visited: set<NodeID>, queue: seq<Peer>,
                                          closest: seq<Peer>, asked: seq<Peer>, batch: seq<Peer>)
    requires visited == {localId} + Ids(asked) && localId !in Ids(asked)
    requires Between(localId, Seen(seeds, replies, asked), visited, queue, closest)
    requires 0 < |batch| <= ALPHA && forall p | p in batch :: p in queue && p.id !in visited
    requires Unvisited(Heard(replies, |asked|, batch), visited + Ids(batch)) == []
    ensures Seen(seeds, replies, asked + batch) - {localId} == Seen(seeds, replies, asked) - {localId}
    ensures localId !in Ids(asked + batch) && Ids(asked + batch) <= Seen(seeds, replies, asked + batch)
    ensures DistinctIds(asked) && DistinctIds(batch) ==> DistinctIds(asked + batch)
    ensures LastAnswersOld(localId, replies, asked + batch)
  {
    RoundSeen(localId, Seen(seeds, replies, asked), visited, queue, closest, batch, Heard(replies, |asked|, batch));
    SeenMore(seeds, replies, asked, batch);
    AskedAfter(localId, visited, asked, batch);
    NothingNew(localId, replies, asked, batch);
  }

  /** A first round that learns nothing new ends the lookup with nothing. */
  lemma {:induction false} FirstRoundLast(d: NodeID -> nat, localId: NodeID, seeds: seq<Peer>, replies: Replies,
                                          queue: seq<Peer>, closest: seq<Peer>, visited: set<NodeID>, asked: seq<Peer>,
                                          batch: seq<Peer>, heard: seq<Peer>)
    requires localId !in Ids(seeds) && Open(d, localId, seeds, replies, true, queue, closest, visited, asked)
    requires RoundOf(seeds, replies, true, queue, visited, asked, batch, heard) && Unvisited(heard, visited + Ids(batch)) == []
    ensures Answer(d, localId, seeds, replies, closest, asked + batch)
  {
    NothingChanges(localId, seeds, replies, visited, queue, closest, asked, batch);
    FirstRound(localId, seeds, replies, visited, asked, batch, heard);
    NearestEmpty(d, Seen(seeds, replies, asked) - {localId});
    assert seeds[0] == batch[0] && seeds[0].id in Ids(seeds);
  }

  /** A later round that learns nothing new ends the lookup with the nearest found so far. */
  lemma {:induction false} LaterRoundLast(d: NodeID -> nat, localId: NodeID, seeds: seq<Peer>, replies: Replies,
                                          queue: seq<Peer>, closest: seq<Peer>, visited: set<NodeID>, asked: seq<Peer>,
                                          batch: seq<Peer>, heard: seq<Peer>)
    requires localId !in Ids(seeds) && Open(d, localId, seeds, replies, false, queue, closest, visited, asked)
    requires RoundOf(seeds, replies, false, queue, visited, asked, batch, heard) && Unvisited(heard, visited + Ids(batch)) == []
    ensures Answer(d, localId, seeds, replies, closest, asked + batch)
  {
    NothingChanges(localId, seeds, replies, visited, queue, closest, asked, batch);
  }

  /** A round that learns nothing new ends the lookup with its answer. */
  lemma {:induction false} LastRound(d: NodeID -> nat, localId: NodeID, seeds: seq<Peer>, replies: Replies, first: bool,
                                     queue: seq<Peer>, closest: seq<Peer>, visited: set<NodeID>, asked: seq<Peer>,
                                     batch: seq<Peer>, heard: seq<Peer>)
    requires localId !in Ids(seeds)
    requires Open(d, localId, seeds, replies, first, queue, closest, visited, asked)
    requires RoundOf(seeds, replies, first, queue, visited, asked, batch, heard)
    requires Unvisited(heard, visited + Ids(batch)) == []
    ensures Answer(d, localId, seeds, replies, closest, asked + batch)
  {
    if first {
      FirstRoundLast(d, localId, seeds, replies, queue, closest, visited, asked, batch, heard);
    } else {
      LaterRoundLast(d, localId, seeds, replies, queue, closest, visited, asked, batch, heard);
    }
  }

  /** A round that learns something new leads to `Open` again. */
  lemma {:induction false} NextRound(d: NodeID -> nat, localId: NodeID, seeds: seq<Peer>, replies: Replies, first: bool,
                                    queue: seq<Peer>, closest: seq<Peer>, visited: set<NodeID>, asked: seq<Peer>,
                                    batch: seq<Peer>, heard: seq<Peer>)
    requires localId !in Ids(seeds)
    requires Open(d, localId, seeds, replies, first, queue, closest, visited, asked)
    requires RoundOf(seeds, replies, first, queue, visited, asked, batch, heard)
    requires Injective(d) && Unvisited(heard, visited + Ids(batch)) != []
    ensures var closest' := MergeNearest(d, closest + (queue + Unvisited(heard, visited + Ids(batch))));
      Open(d, localId, seeds, replies, false, Unvisited(closest', visited + Ids(batch)), closest', visited + Ids(batch), asked + batch)
  {
    var seen, visited' := Seen(seeds, replies, asked), visited + Ids(batch);
    var news := Unvisited(heard, visited');
    RoundSeen(localId, seen, visited, queue, closest, batch, heard);
    RoundMerge(d, localId, seen, visited, queue, closest, news, first);
    RoundQueue(d, localId, seen + Ids(heard), visited', MergeNearest(d, closest + (queue + news)));
    SeenMore(seeds, replies, asked, batch);
    AskedAfter(localId, visited, asked, batch);
    if first { FirstRound(localId, seeds, replies, visited, asked, batch, heard); }
  }

  lemma {:induction false} NothingNew(localId: NodeID, replies: Replies, asked: seq<Peer>, batch: seq<Peer>)
    requires 0 < |batch| <= ALPHA
    requires Unvisited(Heard(replies, |asked|, batch), {localId} + Ids(asked) + Ids(batch)) == []
    ensures LastAnswersOld(localId, replies, asked + batch)
  {
    var heard := Heard(replies, |asked|, batch);
    UnvisitedExact(heard, {localId} + Ids(asked) + Ids(batch));
    IdsAppend(asked, batch);
    assert (asked + batch)[|asked|..] == batch;
    forall x | x in Ids(heard) ensures x in Ids(asked + batch) + {localId} {
      var p :| p in heard && p.id == x;
    }
  }

  /** The lookup, as `Answer` describes it; `asked` is the order in which it sent its queries. */
  method FindNode(localId: NodeID, target: NodeID, seeds: seq<Peer>, replies: Replies)
    returns (closest: seq<Peer>, asked: seq<Peer>)
    requires localId !in Ids(seeds)
    ensures Answer(IdDist(target), localId, seeds, replies, closest, asked)
  {
    var queue, visited := seeds, {localId};
    closest, asked := [], [];
    var d := IdDist(target);
    ghost var first := true;
    ghost var space := IdSpace();
    IdDistInjective(target);
    FirstBatch(seeds, localId);
    while true
      invariant Open(d, localId, seeds, replies, first, queue, closest, visited, asked)
      decreases space - visited
    {
      var batch := NextBatch(queue, visited);
      BatchFacts(queue, visited, batch);
      if batch == [] {
        NobodyLeft(d, localId, seeds, replies, first, queue, closest, visited, asked);
        break;
      }
      BatchGrows(space, visited, batch);
      ghost var before := visited;
      visited := visited + Ids(batch);
      var news := Gather(replies, |asked|, batch, visited);
      ghost var was, heard := asked, Heard(replies, |asked|, batch);
      asked := asked + batch;
      if news == [] {
        LastRound(d, localId, seeds, replies, first, queue, closest, before, was, batch, heard);
        break;
      }
      NextRound(d, localId, seeds, replies, first, queue, closest, before, was, batch, heard);
      queue := queue + news;
      closest := MergeNearest(d, closest + queue);
      first := false;
      queue := Unvisited(closest, visited);
      if queue == [] {
        NobodyLeft(d, localId, seeds, replies, first, queue, closest, visited, asked);
        break;
      }
    }
  }

  lemma {:induction false} FirstBatch(seeds: seq<Peer>, localId: NodeID)
    requires localId !in Ids(seeds)
    ensures forall p | p in seeds :: p.id !in {localId}
  {
    forall p | p in seeds ensures p.id != localId { assert p.id in Ids(seeds); }
  }
}
