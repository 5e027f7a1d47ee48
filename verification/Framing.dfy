/** Large messages cut into chunks for the gossip network, and put together again in any order. */
module Framing {
  import opened Basics
  import opened Cipher
  import opened Machine

  const APP_MAX_MESSAGE: nat := 16 * 1024 * 1024

  /** Time to live of an incomplete stream, 30 seconds in nanoseconds. */
  const CHUNK_STREAM_TTL: nat := 30 * 1_000_000_000

  type StreamId = nat

  type Hasher = Octets -> Octets

  datatype ChunkEnvelope = ChunkEnvelope(streamId: StreamId, chunkIndex: nat, totalChunks: nat, payloadHash: Octets, data: Octets)

  datatype FrameError = MessageTooLarge(size: nat) | HashMismatch(expected: Octets, got: Octets)

  datatype PartialStream = PartialStream(totalChunks: nat, expectedHash: Octets, received: map<nat, Octets>, firstSeen: nat)

  type Streams = map<StreamId, PartialStream>

  /** A cast to `u32`. */
  function U32(n: nat): nat {
    if n < TWO_32 then n else n % TWO_32
  }

  /** Chunk `i` of a message, as it travels.  Counts and indices are `u32`. */
  function Envelope(h: Hasher, data: Octets, id: StreamId, i: nat): ChunkEnvelope
    requires i < |Chunks(data)|
  {
    ChunkEnvelope(id, U32(i), U32(|Chunks(data)|), h(data), Chunks(data)[i])
  }

  function ChunkMessage(h: Hasher, data: Octets, id: StreamId): Result<seq<ChunkEnvelope>, FrameError> {
    if |data| > APP_MAX_MESSAGE then Err(MessageTooLarge(|data|))
    else Ok(seq(|Chunks(data)|, i requires 0 <= i < |Chunks(data)| => Envelope(h, data, id, i)))
  }

  /** Chunks are cut for the Noise limit, carry the whole message, and their numbers are not truncated. */
  lemma {:induction false} ChunkMessageExact(h: Hasher, data: Octets, id: StreamId)
    ensures ChunkMessage(h, data, id).Ok? <==> |data| <= APP_MAX_MESSAGE
    ensures |data| <= APP_MAX_MESSAGE ==>
              var es := ChunkMessage(h, data, id).value;
              && |es| == |Chunks(data)| && (es == [] <==> data == [])
              && (forall i | 0 <= i < |es| ::
                    && es[i] == ChunkEnvelope(id, i, |es|, h(data), Chunks(data)[i])
                    && 0 < |es[i].data| <= MAX_PLAINTEXT)
              && Flatten(Chunks(data)) == data
  {
    ChunksFrameable(data);
    ChunkCount(data);
    forall i | 0 <= i < |Chunks(data)| ensures 0 < |Chunks(data)[i]| <= MAX_PLAINTEXT { assert Chunks(data)[i] in Chunks(data); }
  }

  lemma {:induction false} ChunkCount(s: Octets)
    ensures |Chunks(s)| <= |s|
    decreases |s|
  {
    if |s| > MAX_PLAINTEXT { ChunkCount(s[MAX_PLAINTEXT..]); }
  }

  // ----------------------------------------------------------- reassembly

  function Live(streams: Streams, now: nat): Streams {
    map id | id in streams && now < streams[id].firstSeen + CHUNK_STREAM_TTL :: streams[id]
  }

  /** The chunks `0..n` in order; a missing one counts as empty. */
  function Reassemble(received: map<nat, Octets>, n: nat): Octets {
    if n == 0 then []
    else Reassemble(received, n - 1) + if n - 1 in received then received[n - 1] else []
  }

  function Entry(streams: Streams, env: ChunkEnvelope, now: nat): PartialStream {
    var s := if env.streamId in streams then streams[env.streamId]
             else PartialStream(env.totalChunks, env.payloadHash, map[], now);
    s.(received := s.received[env.chunkIndex := env.data])
  }

  function FeedOne(h: Hasher, before: Streams, env: ChunkEnvelope, now: nat): (Streams, Result<Option<Octets>, FrameError>) {
    var streams := Live(before, now);
    var s := Entry(streams, env, now);
    if U32(|s.received|) != s.totalChunks then (streams[env.streamId := s], Ok(None))
    else
      var data := Reassemble(s.received, s.totalChunks);
      (streams - {env.streamId}, if h(data) == s.expectedHash then Ok(Some(data)) else Err(HashMismatch(s.expectedHash, h(data))))
  }

  /**
   A stream that is answered is gone, whether it came out right or with the wrong hash; one that is not keeps the
   chunk.  A wrong hash is reported only where the hashes differ.
   */
  lemma {:induction false} FeedOutcome(h: Hasher, before: Streams, env: ChunkEnvelope, now: nat)
    ensures var (after, r) := FeedOne(h, before, env, now);
      && (r != Ok(None) <==> env.streamId !in after)
      && (r == Ok(None) ==> env.chunkIndex in after[env.streamId].received && after[env.streamId].received[env.chunkIndex] == env.data)
      && (r.Err? ==> r.error.HashMismatch? && r.error.expected != r.error.got
                     && r.error.expected == Entry(Live(before, now), env, now).expectedHash)
      && (r.Ok? && r.value.Some? ==> h(r.value.value) == Entry(Live(before, now), env, now).expectedHash)
  {
  }

  class ChunkReassembler {
    const h: Hasher
    var streams: Streams

    constructor (h: Hasher)
      ensures this.h == h && streams == map[]
    {
      this.h, streams := h, map[];
    }

    method EvictExpired(now: nat)
      modifies this
      ensures streams == Live(old(streams), now)
    {
      streams := map id | id in streams && now < streams[id].firstSeen + CHUNK_STREAM_TTL :: streams[id];
    }

    method Join(stream: PartialStream) returns (data: Octets)
      ensures data == Reassemble(stream.received, stream.totalChunks)
    {
      data := [];
      for i := 0 to stream.totalChunks
        invariant data == Reassemble(stream.received, i)
      {
        data := data + if i in stream.received then stream.received[i] else [];
      }
    }

    /** The chunk joins the entry of its stream, a new one if need be. */
    method Add(env: ChunkEnvelope, now: nat) returns (stream: PartialStream)
      modifies this
      ensures stream == Entry(Live(old(streams), now), env, now) && streams == Live(old(streams), now)[env.streamId := stream]
    {
      EvictExpired(now);
      if env.streamId !in streams {
        streams := streams[env.streamId := PartialStream(env.totalChunks, env.payloadHash, map[], now)];
      }
      stream := streams[env.streamId];
      stream := stream.(received := stream.received[env.chunkIndex := env.data]);
      streams := streams[env.streamId := stream];
    }

    method Feed(env: ChunkEnvelope, now: nat) returns (r: Result<Option<Octets>, FrameError>)
      modifies this
      ensures (streams, r) == FeedOne(h, old(streams), env, now)
    {
      var stream := Add(env, now);
      if U32(|stream.received|) == stream.totalChunks {
        var reassembled := Join(stream);
        var got := h(reassembled);
        streams := streams - {env.streamId};
        assert streams == Live(old(streams), now) - {env.streamId};
        if got != stream.expectedHash { return Err(HashMismatch(stream.expectedHash, got)); }
        return Ok(Some(reassembled));
      }
      r := Ok(None);
    }
  }

  // ------------------------------------------------- runs of any envelopes

  /** An envelope and the time it arrives. */
  datatype Arrival = Arrival(env: ChunkEnvelope, time: nat)

  function Feeding(h: Hasher): (Streams, Arrival) -> (Streams, Result<Option<Octets>, FrameError>) {
    (streams: Streams, a: Arrival) => FeedOne(h, streams, a.env, a.time)
  }

  /** What an empty reassembler returned for each of the arrivals. */
  ghost function Returned(h: Hasher, feeds: seq<Arrival>): seq<Result<Option<Octets>, FrameError>> {
    RunOf(Feeding(h), map[], feeds, |feeds|).1
  }

  /** Its state before arrival `n`. */
  ghost function Before(h: Hasher, feeds: seq<Arrival>, n: nat): Streams
    requires n <= |feeds|
  {
    RunOf(Feeding(h), map[], feeds, n).0
  }

  lemma {:induction false} ReturnedAt(h: Hasher, feeds: seq<Arrival>, i: nat)
    requires i < |feeds|
    ensures |Returned(h, feeds)| == |feeds|
    ensures Returned(h, feeds)[i] == FeedOne(h, Before(h, feeds, i), feeds[i].env, feeds[i].time).1
  {
    OutputAt(Feeding(h), map[], feeds, |feeds|, i);
  }

  /** `data` arrived as chunk `k` of stream `id`, at or after arrival `j` and before arrival `n`. */
  ghost predicate Brought(feeds: seq<Arrival>, j: nat, n: nat, id: StreamId, k: nat, data: Octets)
    requires n <= |feeds|
  {
    exists m :: j <= m < n && feeds[m].env.streamId == id && feeds[m].env.chunkIndex == k && feeds[m].env.data == data
  }

  /** Arrival `j` opened the entry `s` of stream `id`; its chunks came since, and it is still within its time. */
  ghost predicate OpenedBy(feeds: seq<Arrival>, n: nat, id: StreamId, s: PartialStream, j: nat)
    requires n <= |feeds|
  {
    && j < n && feeds[j].env.streamId == id
    && s.expectedHash == feeds[j].env.payloadHash && s.totalChunks == feeds[j].env.totalChunks && s.firstSeen == feeds[j].time
    && Unexplained(feeds, n, id, s.received, j) == {}
  }

  /** The chunks that did not arrive for stream `id` since arrival `j`. */
  ghost function Unexplained(feeds: seq<Arrival>, n: nat, id: StreamId, received: map<nat, Octets>, j: nat): set<nat>
    requires n <= |feeds|
  {
    set k | k in received && !Brought(feeds, j, n, id, k, received[k])
  }

  lemma {:induction false} OpenedMore(feeds: seq<Arrival>, n: nat, id: StreamId, s: PartialStream, j: nat, next: nat)
    requires n <= next <= |feeds| && OpenedBy(feeds, n, id, s, j)
    ensures OpenedBy(feeds, next, id, s, j)
  {
    forall k | k in s.received ensures Brought(feeds, j, next, id, k, s.received[k]) {
      assert k !in Unexplained(feeds, n, id, s.received, j);
      var m :| j <= m < n && feeds[m].env.streamId == id && feeds[m].env.chunkIndex == k && feeds[m].env.data == s.received[k];
      assert j <= m < next;
    }
  }

  /** The entry an arrival finds or makes was opened by some arrival, this one at the latest. */
  lemma {:induction false} EntryOpened(feeds: seq<Arrival>, n: nat, streams: Streams, j: nat) returns (j': nat)
    requires n < |feeds|
    requires feeds[n].env.streamId in streams ==> OpenedBy(feeds, n, feeds[n].env.streamId, streams[feeds[n].env.streamId], j)
    ensures OpenedBy(feeds, n + 1, feeds[n].env.streamId, Entry(streams, feeds[n].env, feeds[n].time), j')
    ensures j' == if feeds[n].env.streamId in streams then j else n
  {
    var env := feeds[n].env;
    var id := env.streamId;
    j' := if id in streams then j else n;
    if id in streams { OpenedMore(feeds, n, id, streams[id], j, n + 1); }
    var s := Entry(streams, env, feeds[n].time);
    forall k | k in s.received ensures Brought(feeds, j', n + 1, id, k, s.received[k]) {
      if k == env.chunkIndex {
        assert j' <= n < n + 1 && feeds[n].env.streamId == id && feeds[n].env.chunkIndex == k && feeds[n].env.data == s.received[k];
      } else {
        assert k !in Unexplained(feeds, n + 1, id, streams[id].received, j);
      }
    }
  }

  /** An entry for `id`, if there is one, was opened by some arrival. */
  ghost predicate HasOpener(feeds: seq<Arrival>, n: nat, streams: Streams, id: StreamId) {
    n <= |feeds| && (id in streams ==> exists j :: OpenedBy(feeds, n, id, streams[id], j))
  }

  lemma {:induction false} OpenerStep(h: Hasher, feeds: seq<Arrival>, n: nat, before: Streams, id: StreamId)
    requires n < |feeds| && HasOpener(feeds, n, before, id)
    ensures HasOpener(feeds, n + 1, FeedOne(h, before, feeds[n].env, feeds[n].time).0, id)
  {
    var after := FeedOne(h, before, feeds[n].env, feeds[n].time).0;
    if id in after {
      var j: nat := 0;
      if id in before { j :| OpenedBy(feeds, n, id, before[id], j); }
      if id != feeds[n].env.streamId {
        OpenedMore(feeds, n, id, before[id], j, n + 1);
      } else {
        var j' := EntryOpened(feeds, n, Live(before, feeds[n].time), j);
      }
    }
  }

  lemma {:induction false} AllOpened(h: Hasher, feeds: seq<Arrival>, n: nat, id: StreamId)
    requires n <= |feeds|
    ensures HasOpener(feeds, n, Before(h, feeds, n), id)
  {
    var inv := (k: nat, streams: Streams) => HasOpener(feeds, k, streams, id);
    forall k: nat, streams: Streams | k < |feeds| && inv(k, streams) ensures inv(k + 1, Feeding(h)(streams, feeds[k]).0) {
      OpenerStep(h, feeds, k, streams, id);
    }
    Invariant(Feeding(h), map[], feeds, n, inv);
  }

  /**
   Whatever envelopes arrive, well-formed or not: data handed over has the hash announced by the arrival `j`
   that opened its stream, not longer than the time limit ago, and is put together, in the order of their
   indices and up to the count announced there, from chunks that arrived for that stream since.
   */
  lemma {:induction false} OnlyHashed(h: Hasher, feeds: seq<Arrival>, i: nat, data: Octets) returns (j: nat, received: map<nat, Octets>)
    requires i < |feeds| && |Returned(h, feeds)| == |feeds| && Returned(h, feeds)[i] == Ok(Some(data))
    ensures j <= i && feeds[j].env.streamId == feeds[i].env.streamId && h(data) == feeds[j].env.payloadHash
    ensures j < i ==> feeds[i].time < feeds[j].time + CHUNK_STREAM_TTL
    ensures data == Reassemble(received, feeds[j].env.totalChunks) && U32(|received|) == feeds[j].env.totalChunks
    ensures forall k | k in received :: Brought(feeds, j, i + 1, feeds[i].env.streamId, k, received[k])
  {
    ReturnedAt(h, feeds, i);
    var id, before := feeds[i].env.streamId, Before(h, feeds, i);
    AllOpened(h, feeds, i, id);
    j, received := HandedOver(h, feeds, i, before, data);
  }

  lemma {:induction false} HandedOver(h: Hasher, feeds: seq<Arrival>, i: nat, before: Streams, data: Octets)
      returns (j: nat, received: map<nat, Octets>)
    requires i < |feeds| && HasOpener(feeds, i, before, feeds[i].env.streamId)
    requires FeedOne(h, before, feeds[i].env, feeds[i].time).1 == Ok(Some(data))
    ensures j <= i && feeds[j].env.streamId == feeds[i].env.streamId && h(data) == feeds[j].env.payloadHash
    ensures j < i ==> feeds[i].time < feeds[j].time + CHUNK_STREAM_TTL
    ensures data == Reassemble(received, feeds[j].env.totalChunks) && U32(|received|) == feeds[j].env.totalChunks
    ensures forall k | k in received :: Brought(feeds, j, i + 1, feeds[i].env.streamId, k, received[k])
  {
    var id, live := feeds[i].env.streamId, Live(before, feeds[i].time);
    j := 0;
    if id in live { j :| OpenedBy(feeds, i, id, before[id], j); }
    j := EntryOpened(feeds, i, live, j);
    received := Entry(live, feeds[i].env, feeds[i].time).received;
    assert forall k | k in received :: k !in Unexplained(feeds, i + 1, id, received, j);
  }

  // ------------------------------------------------ runs of true messages

  /** Chunk `index` of stream `id` arriving at `time`. */
  datatype Delivery = Delivery(id: StreamId, index: nat, time: nat)

  type Family = map<StreamId, Octets>

  function Range(n: nat): (r: set<nat>)
    ensures |r| == n && forall i: nat :: i in r <==> i < n
  {
    if n == 0 then {} else Range(n - 1) + {n - 1}
  }

  function Count(m: Octets): nat {
    |Chunks(m)|
  }

  /** The indices of all chunks of `m`. */
  function Indices(m: Octets): set<nat> {
    Range(Count(m))
  }

  /** Chunks of the messages of `fam`, in any order, at any times, any number of times. */
  ghost predicate Indexed(fam: Family, events: seq<Delivery>) {
    && (forall id | id in fam :: |fam[id]| <= APP_MAX_MESSAGE)
    && forall i | 0 <= i < |events| :: events[i].id in fam && events[i].index < Count(fam[events[i].id])
  }

  ghost function FeedOf(h: Hasher, fam: Family, d: Delivery): Arrival
    requires d.id in fam && d.index < Count(fam[d.id])
  {
    Arrival(Envelope(h, fam[d.id], d.id, d.index), d.time)
  }

  ghost function FeedsOf(h: Hasher, fam: Family, events: seq<Delivery>): (feeds: seq<Arrival>)
    requires Indexed(fam, events)
    ensures |feeds| == |events| && forall i | 0 <= i < |events| :: feeds[i] == FeedOf(h, fam, events[i])
  {
    seq(|events|, i requires 0 <= i < |events| => FeedOf(h, fam, events[i]))
  }

  /** The chunks of `id` among the deliveries from `j` to before `n`. */
  function ArrivedFrom(events: seq<Delivery>, j: nat, n: nat, id: StreamId): set<nat>
    requires n <= |events|
  {
    set i | j <= i < n && events[i].id == id :: events[i].index
  }

  /** A stream opened by delivery `s` is still there at `time`. */
  function InTime(events: seq<Delivery>, s: Option<nat>, time: nat): Option<nat>
    requires s.Some? ==> s.value < |events|
  {
    if s.Some? && time < events[s.value].time + CHUNK_STREAM_TTL then s else None
  }

  /** The delivery since which the chunks of `id` are being collected, after `n` deliveries; `None` if none are. */
  function Start(fam: Family, events: seq<Delivery>, n: nat, id: StreamId): (s: Option<nat>)
    requires n <= |events| && id in fam
    ensures s.Some? ==> s.value < n && events[s.value].id == id
  {
    if n == 0 then None
    else
      var live := InTime(events, Start(fam, events, n - 1, id), events[n - 1].time);
      if events[n - 1].id != id then live
      else
        var j := if live.Some? then live.value else n - 1;
        if ArrivedFrom(events, j, n, id) == Indices(fam[id]) then None else Some(j)
  }

  ghost function StartAt(fam: Family, events: seq<Delivery>, n: nat, id: StreamId): (s: Option<nat>)
    requires n <= |events| && id in fam
    ensures s.Some? ==> s.value < n && events[s.value].id == id
  {
    Start(fam, events, n, id)
  }

  /** The delivery since which the chunks of its stream are being collected when delivery `i` comes, itself at the latest. */
  ghost function Opening(fam: Family, events: seq<Delivery>, i: nat): (j: nat)
    requires i < |events| && events[i].id in fam
    ensures j <= i && events[j].id == events[i].id
  {
    var live := InTime(events, StartAt(fam, events, i, events[i].id), events[i].time);
    if live.Some? then live.value else i
  }

  /** With delivery `i` all chunks of its message have come since its stream was opened. */
  ghost predicate Fills(fam: Family, events: seq<Delivery>, i: nat)
    requires i < |events| && events[i].id in fam
  {
    ArrivedFrom(events, Opening(fam, events, i), i + 1, events[i].id) == Indices(fam[events[i].id])
  }

  lemma {:induction false} StartStep(fam: Family, events: seq<Delivery>, n: nat, id: StreamId)
    requires n < |events| && id in fam
    ensures StartAt(fam, events, n + 1, id) ==
            if events[n].id != id then InTime(events, StartAt(fam, events, n, id), events[n].time)
            else if Fills(fam, events, n) then None
            else Some(Opening(fam, events, n))
  {
  }

  /** The chunks of `m` with the indices `idx`. */
  function Got(m: Octets, idx: set<nat>): map<nat, Octets> {
    map i | i in idx && i < |Chunks(m)| :: Chunks(m)[i]
  }

  /** An entry for message `m` that holds the chunks `idx`. */
  ghost predicate Entered(h: Hasher, m: Octets, s: PartialStream, idx: set<nat>) {
    s.totalChunks == Count(m) && s.expectedHash == h(m) && s.received == Got(m, idx)
  }

  /** The entry for `id` that `Start` calls for. */
  ghost function Expected(h: Hasher, fam: Family, events: seq<Delivery>, n: nat, id: StreamId): Option<PartialStream>
    requires n <= |events| && id in fam
  {
    var s := StartAt(fam, events, n, id);
    if s.None? then None
    else Some(PartialStream(Count(fam[id]), h(fam[id]), Got(fam[id], ArrivedFrom(events, s.value, n, id)), events[s.value].time))
  }

  function Find(streams: Streams, id: StreamId): Option<PartialStream> {
    if id in streams then Some(streams[id]) else None
  }

  ghost predicate Tracked(h: Hasher, fam: Family, events: seq<Delivery>, n: nat, streams: Streams, id: StreamId)
    requires n <= |events| && id in fam
  {
    Find(streams, id) == Expected(h, fam, events, n, id)
  }

  lemma {:induction false} ArrivedMore(events: seq<Delivery>, j: nat, n: nat, id: StreamId)
    requires j <= n < |events|
    ensures ArrivedFrom(events, j, n + 1, id) == ArrivedFrom(events, j, n, id) + if events[n].id == id then {events[n].index} else {}
  {
    var more := ArrivedFrom(events, j, n, id) + if events[n].id == id then {events[n].index} else {};
    forall x | x in more ensures x in ArrivedFrom(events, j, n + 1, id) {
      if x in ArrivedFrom(events, j, n, id) {
        var i :| j <= i < n && events[i].id == id && events[i].index == x;
        assert j <= i < n + 1;
      } else {
        assert events[n].id == id && events[n].index == x;
      }
    }
  }

  lemma {:induction false} ArrivedWithin(fam: Family, events: seq<Delivery>, j: nat, n: nat, id: StreamId)
    requires Indexed(fam, events) && n <= |events| && id in fam
    ensures ArrivedFrom(events, j, n, id) <= Indices(fam[id])
  {
  }

  lemma {:induction false} ReassembleAll(m: Octets, n: nat)
    requires n <= |Chunks(m)|
    ensures Reassemble(Got(m, Indices(m)), n) == Flatten(Chunks(m)[..n])
  {
    if n > 0 {
      ReassembleAll(m, n - 1);
      assert Chunks(m)[..n] == Chunks(m)[..n - 1] + [Chunks(m)[n - 1]];
      FlattenSplit(Chunks(m)[..n - 1], [Chunks(m)[n - 1]]);
      FlattenOne(Chunks(m)[n - 1]);
    }
  }

  lemma {:induction false} GotMore(m: Octets, idx: set<nat>, i: nat)
    requires i < |Chunks(m)|
    ensures Got(m, idx)[i := Chunks(m)[i]] == Got(m, idx + {i}) && Got(m, {}) == map[]
  {
  }

  lemma {:induction false} EnvelopeExact(h: Hasher, m: Octets, id: StreamId, i: nat)
    requires |m| <= APP_MAX_MESSAGE && i < |Chunks(m)|
    ensures Envelope(h, m, id, i) == ChunkEnvelope(id, i, |Chunks(m)|, h(m), Chunks(m)[i])
  {
    ChunkCount(m);
  }

  /** The entry a chunk finds or makes holds one chunk more. */
  lemma {:induction false} EntryMore(h: Hasher, m: Octets, id: StreamId, i: nat, streams: Streams, now: nat, idx: set<nat>)
    requires |m| <= APP_MAX_MESSAGE && i < |Chunks(m)|
    requires if id in streams then Entered(h, m, streams[id], idx) else idx == {}
    ensures Entered(h, m, Entry(streams, Envelope(h, m, id, i), now), idx + {i})
  {
    EnvelopeExact(h, m, id, i);
    GotMore(m, idx, i);
  }

  lemma {:induction false} JoinComplete(m: Octets)
    ensures Reassemble(Got(m, Indices(m)), |Chunks(m)|) == m
  {
    ReassembleAll(m, |Chunks(m)|);
    assert Chunks(m)[..|Chunks(m)|] == Chunks(m);
    ChunksFrameable(m);
  }

  lemma {:induction false} CountComplete(m: Octets, idx: set<nat>)
    requires |m| <= APP_MAX_MESSAGE && idx <= Indices(m)
    ensures U32(|Got(m, idx)|) == |Chunks(m)| <==> idx == Indices(m)
  {
    SubsetCard(idx, Indices(m));
    assert Got(m, idx).Keys == idx;
    ChunkCount(m);
  }

  /** The message comes out exactly when all its chunks are there. */
  lemma {:induction false} FeedEntered(h: Hasher, before: Streams, m: Octets, env: ChunkEnvelope, now: nat, idx: set<nat>)
    requires |m| <= APP_MAX_MESSAGE && idx <= Indices(m)
    requires Entered(h, m, Entry(Live(before, now), env, now), idx)
    ensures FeedOne(h, before, env, now) ==
            if idx == Indices(m) then (Live(before, now) - {env.streamId}, Ok(Some(m)))
            else (Live(before, now)[env.streamId := Entry(Live(before, now), env, now)], Ok(None))
  {
    CountComplete(m, idx);
    JoinComplete(m);
  }

  /** A delivery for another stream: an entry stays as it is or is evicted. */
  lemma {:induction false} TrackedOther(h: Hasher, fam: Family, events: seq<Delivery>, n: nat, before: Streams, id: StreamId, env: ChunkEnvelope)
    requires Indexed(fam, events) && n < |events| && id in fam && events[n].id != id
    requires env.streamId == events[n].id && Tracked(h, fam, events, n, before, id)
    ensures Tracked(h, fam, events, n + 1, FeedOne(h, before, env, events[n].time).0, id)
  {
    StartStep(fam, events, n, id);
    FindOther(h, before, env, events[n].time, id);
    var s := StartAt(fam, events, n, id);
    if s.Some? { ArrivedMore(events, s.value, n, id); }
  }

  lemma {:induction false} FindOther(h: Hasher, before: Streams, env: ChunkEnvelope, now: nat, id: StreamId)
    requires id != env.streamId
    ensures Find(FeedOne(h, before, env, now).0, id) == Find(Live(before, now), id)
  {
  }

  /** A delivery returns the message exactly when it fills its stream. */
  lemma {:induction false} TrackedSame(h: Hasher, fam: Family, events: seq<Delivery>, n: nat, before: Streams)
    requires Indexed(fam, events) && n < |events| && Tracked(h, fam, events, n, before, events[n].id)
    ensures var d := events[n];
      var (after, r) := FeedOne(h, before, Envelope(h, fam[d.id], d.id, d.index), d.time);
      && Tracked(h, fam, events, n + 1, after, d.id)
      && r == if Fills(fam, events, n) then Ok(Some(fam[d.id])) else Ok(None)
  {
    var d := events[n];
    var m, env := fam[d.id], Envelope(h, fam[d.id], d.id, d.index);
    var live, j := Live(before, d.time), Opening(fam, events, n);
    var idx := if d.id in live then ArrivedFrom(events, j, n, d.id) else {};
    StartStep(fam, events, n, d.id);
    ArrivedMore(events, j, n, d.id);
    ArrivedWithin(fam, events, j, n + 1, d.id);
    EntryMore(h, m, d.id, d.index, live, d.time, idx);
    assert ArrivedFrom(events, j, n + 1, d.id) == idx + {d.index};
    FeedEntered(h, before, m, env, d.time, idx + {d.index});
  }

  /** `Tracked`, for the first `n` of the deliveries there are. */
  ghost predicate TrackedUpTo(h: Hasher, fam: Family, events: seq<Delivery>, n: nat, streams: Streams, id: StreamId)
    requires id in fam
  {
    n <= |events| && Tracked(h, fam, events, n, streams, id)
  }

  lemma {:induction false} TrackedStep(h: Hasher, fam: Family, events: seq<Delivery>, n: nat, before: Streams, id: StreamId)
    requires Indexed(fam, events) && n < |events| && id in fam && TrackedUpTo(h, fam, events, n, before, id)
    ensures TrackedUpTo(h, fam, events, n + 1, FeedOne(h, before, FeedOf(h, fam, events[n]).env, events[n].time).0, id)
  {
    if id == events[n].id {
      TrackedSame(h, fam, events, n, before);
    } else {
      TrackedOther(h, fam, events, n, before, id, FeedOf(h, fam, events[n]).env);
    }
  }

  lemma {:induction false} NothingTracked(h: Hasher, fam: Family, events: seq<Delivery>, id: StreamId)
    requires id in fam
    ensures TrackedUpTo(h, fam, events, 0, map[], id)
  {
  }

  /** `Tracked` as an invariant of the run. */
  ghost function Tracking(h: Hasher, fam: Family, events: seq<Delivery>, id: StreamId): (nat, Streams) -> bool
    requires id in fam
  {
    (k: nat, streams: Streams) => TrackedUpTo(h, fam, events, k, streams, id)
  }

  lemma {:induction false} TrackingKept(h: Hasher, fam: Family, events: seq<Delivery>, id: StreamId, k: nat, streams: Streams)
    requires Indexed(fam, events) && k < |events| && id in fam && Tracking(h, fam, events, id)(k, streams)
    ensures Tracking(h, fam, events, id)(k + 1, Feeding(h)(streams, FeedsOf(h, fam, events)[k]).0)
  {
    TrackedStep(h, fam, events, k, streams, id);
  }

  lemma {:induction false} AllTracked(h: Hasher, fam: Family, events: seq<Delivery>, n: nat, id: StreamId)
    requires Indexed(fam, events) && n <= |events| && id in fam
    ensures Tracked(h, fam, events, n, Before(h, FeedsOf(h, fam, events), n), id)
  {
    var feeds, inv, step := FeedsOf(h, fam, events), Tracking(h, fam, events, id), Feeding(h);
    NothingTracked(h, fam, events, id);
    forall k: nat, streams: Streams | k < |feeds| && inv(k, streams) ensures inv(k + 1, step(streams, feeds[k]).0) {
      TrackingKept(h, fam, events, id, k, streams);
    }
    Invariant(step, map[], feeds, n, inv);
    assert TrackedUpTo(h, fam, events, n, Before(h, feeds, n), id);
  }

  /**
   Main result, for chunks in any order, at any times, any number of times: delivery `i` returns the message
   of its stream, whole, exactly when it brings the last chunk missing since the stream was last opened, by
   the first chunk ever or the first after a completion or the end of a time limit; and nothing otherwise.
   */
  lemma {:induction false} ReassemblesExactly(h: Hasher, fam: Family, events: seq<Delivery>, i: nat)
    requires Indexed(fam, events) && i < |events|
    ensures var out := Returned(h, FeedsOf(h, fam, events));
      |out| == |events| && out[i] == if Fills(fam, events, i) then Ok(Some(fam[events[i].id])) else Ok(None)
  {
    var feeds := FeedsOf(h, fam, events);
    ReturnedAt(h, feeds, i);
    AllTracked(h, fam, events, i, events[i].id);
    TrackedSame(h, fam, events, i, Before(h, feeds, i));
  }

  // ------------------------------------------------- what it comes down to

  predicate Complete(fam: Family, events: seq<Delivery>, n: nat, id: StreamId)
    requires n <= |events| && id in fam
  {
    ArrivedFrom(events, 0, n, id) == Indices(fam[id])
  }

  ghost predicate InOrder(events: seq<Delivery>) {
    forall i, j | 0 <= i < j < |events| :: events[i].time <= events[j].time
  }

  /**
   Chunks in any order, interleaved and repeated, as long as time does not run backwards, each stream stays
   within its time limit, and nothing of a stream comes after it is complete.
   */
  ghost predicate Orderly(fam: Family, events: seq<Delivery>) {
    && Indexed(fam, events) && InOrder(events)
    && (forall i, j | 0 <= i < j < |events| && events[i].id == events[j].id :: events[j].time < events[i].time + CHUNK_STREAM_TTL)
    && forall i | 0 <= i < |events| :: !Complete(fam, events, i, events[i].id)
  }

  /** Delivery `f` is the first of its stream. */
  predicate First(events: seq<Delivery>, f: nat) {
    f < |events| && forall i | 0 <= i < f :: events[i].id != events[f].id
  }

  lemma {:induction false} FirstOf(events: seq<Delivery>, i: nat) returns (f: nat)
    requires i < |events|
    ensures f <= i && events[f].id == events[i].id && First(events, f)
  {
    f := 0;
    while events[f].id != events[i].id
      decreases i - f
      invariant f <= i && forall k | 0 <= k < f :: events[k].id != events[i].id
    {
      f := f + 1;
    }
  }

  lemma {:induction false} SinceFirst(events: seq<Delivery>, f: nat, n: nat)
    requires First(events, f) && f < n <= |events|
    ensures ArrivedFrom(events, f, n, events[f].id) == ArrivedFrom(events, 0, n, events[f].id)
  {
  }

  /** Opened at its first delivery, a stream is filled exactly when all chunks have come. */
  lemma {:induction false} FillsIfFirst(fam: Family, events: seq<Delivery>, f: nat, i: nat)
    requires Indexed(fam, events) && i < |events| && First(events, f) && f <= i && events[f].id == events[i].id
    requires Opening(fam, events, i) == f
    ensures Fills(fam, events, i) <==> Complete(fam, events, i + 1, events[i].id)
  {
    SinceFirst(events, f, i + 1);
  }

  /** As long as its chunks come in time and do not complete it, a stream goes back to its first delivery. */
  lemma {:induction false} KeepsStart(fam: Family, events: seq<Delivery>, f: nat, n: nat)
    requires Indexed(fam, events) && First(events, f) && f < n <= |events|
    requires forall k | f < k < n :: events[k].time < events[f].time + CHUNK_STREAM_TTL
    requires forall k | f < k <= n && events[k - 1].id == events[f].id :: !Complete(fam, events, k, events[f].id)
    ensures StartAt(fam, events, n, events[f].id) == Some(f)
  {
    var id, m: nat := events[f].id, n - 1;
    StartStep(fam, events, m, id);
    if m == f {
      assert StartAt(fam, events, f, id).None?;
    } else {
      KeepsStart(fam, events, f, m);
    }
    if events[m].id == id {
      FillsIfFirst(fam, events, f, m);
      assert !Complete(fam, events, n, id);
    }
  }

  /** Delivery `i` finds its stream opened by the first delivery of it. */
  lemma {:induction false} OpensFirst(fam: Family, events: seq<Delivery>, f: nat, i: nat)
    requires Indexed(fam, events) && i < |events| && First(events, f) && f <= i && events[f].id == events[i].id
    requires forall k | f < k <= i :: events[k].time < events[f].time + CHUNK_STREAM_TTL
    requires forall k | f < k <= i && events[k - 1].id == events[f].id :: !Complete(fam, events, k, events[f].id)
    ensures Opening(fam, events, i) == f
  {
    if f < i {
      KeepsStart(fam, events, f, i);
    } else {
      assert StartAt(fam, events, i, events[i].id).None?;
    }
  }

  lemma {:induction false} CompleteMonotone(fam: Family, events: seq<Delivery>, m: nat, n: nat, id: StreamId)
    requires Indexed(fam, events) && m <= n <= |events| && id in fam && Complete(fam, events, m, id)
    ensures Complete(fam, events, n, id)
  {
    ArrivedWithin(fam, events, 0, n, id);
    assert ArrivedFrom(events, 0, m, id) <= ArrivedFrom(events, 0, n, id) by {
      forall x | x in ArrivedFrom(events, 0, m, id) ensures x in ArrivedFrom(events, 0, n, id) {
        var k :| 0 <= k < m && events[k].id == id && events[k].index == x;
        assert 0 <= k < n;
      }
    }
  }

  /** Within the time limit of its first delivery, a stream not complete before is filled exactly when it is complete. */
  lemma {:induction false} InTimeFills(fam: Family, events: seq<Delivery>, f: nat, i: nat)
    requires Indexed(fam, events) && InOrder(events) && i < |events|
    requires First(events, f) && f <= i && events[f].id == events[i].id
    requires events[i].time < events[f].time + CHUNK_STREAM_TTL && !Complete(fam, events, i, events[i].id)
    ensures Fills(fam, events, i) <==> Complete(fam, events, i + 1, events[i].id)
  {
    var id := events[i].id;
    forall k | f < k <= i && events[k - 1].id == id ensures !Complete(fam, events, k, id) {
      if Complete(fam, events, k, id) { CompleteMonotone(fam, events, k, i, id); }
    }
    forall k | f < k <= i ensures events[k].time < events[f].time + CHUNK_STREAM_TTL {
      assert k < i ==> events[k].time <= events[i].time;
    }
    OpensFirst(fam, events, f, i);
    FillsIfFirst(fam, events, f, i);
  }

  /**
   In an orderly run each message is returned whole exactly at its last missing chunk and nothing earlier:
   no message is lost, mixed up or returned early.
   */
  lemma {:induction false} Reassembles(h: Hasher, fam: Family, events: seq<Delivery>, i: nat)
    requires Orderly(fam, events) && i < |events|
    ensures var out := Returned(h, FeedsOf(h, fam, events));
      |out| == |events| && out[i] == if Complete(fam, events, i + 1, events[i].id) then Ok(Some(fam[events[i].id])) else Ok(None)
  {
    var f := FirstOf(events, i);
    InTimeFills(fam, events, f, i);
    ReassemblesExactly(h, fam, events, i);
  }

  /** Each chunk is delivered at most once. */
  ghost predicate OnceEach(events: seq<Delivery>) {
    forall i, j | 0 <= i < j < |events| && events[i].id == events[j].id :: events[i].index != events[j].index
  }

  /** A chunk that comes once is missing until it comes. */
  lemma {:induction false} NotBefore(fam: Family, events: seq<Delivery>, i: nat)
    requires Indexed(fam, events) && OnceEach(events) && i < |events|
    ensures events[i].index !in ArrivedFrom(events, 0, i, events[i].id) && events[i].index in Indices(fam[events[i].id])
  {
  }

  /** If the chunks since its opening make the whole message, the opening was the first delivery. */
  lemma {:induction false} FillsFromFirst(fam: Family, events: seq<Delivery>, f: nat, i: nat)
    requires Indexed(fam, events) && OnceEach(events) && i < |events| && First(events, f) && f <= i && events[f].id == events[i].id
    requires Fills(fam, events, i)
    ensures Opening(fam, events, i) == f
  {
    var j := Opening(fam, events, i);
    assert events[f].index in Indices(fam[events[i].id]);
    var k :| j <= k < i + 1 && events[k].id == events[i].id && events[k].index == events[f].index;
    assert k == f;
  }

  /**
   The time limit is exact, for messages of any number of chunks and whatever else arrives: with each chunk
   coming once, a chunk returns its message if and only if it is the last one missing and comes within the
   limit of the first.
   */
  lemma {:induction false} TimeLimitExact(h: Hasher, fam: Family, events: seq<Delivery>, f: nat, i: nat)
    requires Indexed(fam, events) && InOrder(events) && OnceEach(events)
    requires i < |events| && First(events, f) && f <= i && events[f].id == events[i].id
    ensures var out := Returned(h, FeedsOf(h, fam, events));
      |out| == |events| && out[i] ==
        if Complete(fam, events, i + 1, events[i].id) && events[i].time < events[f].time + CHUNK_STREAM_TTL
        then Ok(Some(fam[events[i].id])) else Ok(None)
  {
    ReassemblesExactly(h, fam, events, i);
    if Fills(fam, events, i) {
      FillsFromFirst(fam, events, f, i);
      FillsIfFirst(fam, events, f, i);
    } else if events[i].time < events[f].time + CHUNK_STREAM_TTL {
      NotBefore(fam, events, i);
      InTimeFills(fam, events, f, i);
    }
  }
}
