/** The client's message transport: length-prefixed messages cut into encrypted frames over TCP. */
module Rpc {
  import opened Basics
  import opened Cipher

  const MAX_FRAME_BYTES: nat := 16 * 1024 * 1024

  datatype SdkError = OutgoingTooLarge | IncomingTooLarge | EmptyFrame | NodeUnreachable | ShortBody | Decryption

  // ------------------------------------------------------------- messages

  /** `to_be_bytes` of a `u32`, of the low 32 bits of `n`. */
  function Be32(n: nat): (r: Octets)
    ensures |r| == 4
  {
    Be16(n / 65536) + Be16(n)
  }

  function FromBe32(b: Octets): (n: nat)
    requires |b| == 4
    ensures n < TWO_32
  {
    65536 * FromBe16(b[..2]) + FromBe16(b[2..])
  }

  lemma {:induction false} DivideBy256(q: nat, r: nat)
    requires r < 256
    ensures (256 * q + r) / 256 == q && (256 * q + r) % 256 == r
  {
  }

  lemma {:induction false} Be16Low(n: nat)
    ensures FromBe16(Be16(n)) == n % 65536
  {
    var q, low := n / 65536, n % 65536;
    var a, b := low / 256, low % 256;
    assert n == 256 * (256 * q + a) + b;
    DivideBy256(256 * q + a, b);
    DivideBy256(q, a);
    Be16Back(low);
  }

  lemma {:induction false} Be32Back(n: nat)
    requires n < TWO_32
    ensures FromBe32(Be32(n)) == n
  {
    Be16Low(n / 65536);
    Be16Low(n);
    assert Be32(n)[..2] == Be16(n / 65536) && Be32(n)[2..] == Be16(n);
  }

  /** The length, as a `u32`, and the message. */
  function AppFrame(m: Octets): (r: Octets)
    ensures |r| == 4 + |m|
  {
    Be32(|m| % TWO_32) + m
  }

  /** A message on the wire: four bytes of length, highest first, and its bytes. */
  lemma {:induction false} AppFrameLayout(m: Octets, i: nat)
    requires |m| < TWO_32
    ensures var f := AppFrame(m);
      && f[0] == |m| / 0x100_0000 && f[1] == |m| / 0x1_0000 % 256 && f[2] == |m| / 0x100 % 256 && f[3] == |m| % 256
      && (i < |m| ==> f[4 + i] == m[i])
  {
    var high := |m| / 65536;
    assert high / 256 % 256 == |m| / 0x100_0000;
  }

  /** The chunks of a list of messages, one after the other. */
  function AllChunks(ms: seq<Octets>): seq<Octets> {
    if ms == [] then [] else Chunks(AppFrame(ms[0])) + AllChunks(ms[1..])
  }

  /** The receiver's reading of all it will get: a length and so many bytes. */
  function Parse(whole: Octets): Result<Octets, SdkError> {
    if |whole| < 4 then Err(NodeUnreachable)
    else
      var n := FromBe32(whole[..4]);
      if n > MAX_FRAME_BYTES then Err(IncomingTooLarge)
      else if n == 0 then Err(EmptyFrame)
      else if |whole| < 4 + n then Err(NodeUnreachable)
      else Ok(whole[4..4 + n])
  }

  /** Exactly how a reading ends, by the four bytes of length and by what follows them. */
  lemma {:induction false} ParseExactly(whole: Octets)
    ensures |whole| < 4 ==> Parse(whole) == Err(NodeUnreachable)
    ensures |whole| >= 4 ==>
      var b0: nat, b1: nat, b2: nat, b3: nat := whole[0], whole[1], whole[2], whole[3];
      var n := 0x100_0000 * b0 + 0x1_0000 * b1 + 0x100 * b2 + b3;
      && (Parse(whole) == Err(IncomingTooLarge) <==> n > 16 * 1024 * 1024)
      && (Parse(whole) == Err(EmptyFrame) <==> n == 0)
      && (Parse(whole) == Err(NodeUnreachable) <==> 0 < n <= 16 * 1024 * 1024 && |whole| < 4 + n)
      && (Parse(whole).Ok? <==> 0 < n <= 16 * 1024 * 1024 && |whole| >= 4 + n)
      && (Parse(whole).Ok? ==> Parse(whole).value == whole[4..4 + n])
  {
  }

  predicate Covers(whole: Octets) {
    |whole| >= 4 && |whole| >= 4 + FromBe32(whole[..4])
  }

  lemma {:induction false} ParseBy(whole: Octets, n: nat)
    requires |whole| >= 4 && n == FromBe32(whole[..4]) && 0 < n <= MAX_FRAME_BYTES
    ensures Parse(whole) == if 4 + n <= |whole| then Ok(whole[4..4 + n]) else Err(NodeUnreachable)
    ensures Covers(whole) <==> 4 + n <= |whole|
  {
  }

  /** A message the sender accepts arrives as it was exactly when it is neither empty nor longer than the limit. */
  lemma {:induction false} ParseAppFrame(m: Octets)
    requires |m| % TWO_32 <= MAX_FRAME_BYTES
    ensures Covers(AppFrame(m))
    ensures Parse(AppFrame(m)) == Ok(m) <==> 0 < |m| <= MAX_FRAME_BYTES
    ensures Parse(AppFrame(m)) == Err(EmptyFrame) <==> |m| % TWO_32 == 0
  {
    LengthOf(m);
    var n := |m| % TWO_32;
    if 0 < n { assert |AppFrame(m)[4..4 + n]| == n; }
    if 0 < n == |m| { assert AppFrame(m)[4..4 + n] == AppFrame(m)[4..]; }
  }

  lemma {:induction false} LengthOf(m: Octets)
    ensures FromBe32(AppFrame(m)[..4]) == |m| % TWO_32 && AppFrame(m)[4..] == m
  {
    Be32Back(|m| % TWO_32);
    assert AppFrame(m)[..4] == Be32(|m| % TWO_32);
  }

  lemma {:induction false} AllChunksMore(ms: seq<Octets>, m: Octets)
    ensures AllChunks(ms + [m]) == AllChunks(ms) + Chunks(AppFrame(m))
  {
    if ms == [] {
      assert [] + [m] == [m] && [m][1..] == [];
      assert Chunks(AppFrame(m)) + [] == Chunks(AppFrame(m));
    } else {
      AllChunksMore(ms[1..], m);
      assert (ms + [m])[1..] == ms[1..] + [m];
      Associative(Chunks(AppFrame(ms[0])), AllChunks(ms[1..]), Chunks(AppFrame(m)));
    }
  }

  // ------------------------------------------------------------ transport

  /** One direction of a TCP connection: all bytes written, and how many were read. */
  class Tcp {
    var sent: Octets
    var taken: nat

    constructor ()
      ensures Valid() && Tail() == []
    {
      sent, taken := [], 0;
    }

    ghost predicate Valid() reads this { taken <= |sent| }

    ghost function Tail(): Octets
      requires Valid()
      reads this
    {
      sent[taken..]
    }

    method WriteAll(data: Octets)
      requires Valid()
      modifies this
      ensures Valid() && Tail() == old(Tail()) + data
    {
      sent := sent + data;
    }

    /** `None` when the stream ends before `n` bytes. */
    method ReadExact(n: nat) returns (r: Option<Octets>)
      requires Valid()
      modifies this
      ensures Valid()
      ensures n <= |old(Tail())| ==> r == Some(old(Tail())[..n]) && Tail() == old(Tail())[n..]
      ensures n > |old(Tail())| ==> r == None && Tail() == old(Tail())
    {
      if n > |sent| - taken { return None; }
      assert Tail()[..n] == sent[taken..taken + n];
      r := Some(sent[taken..taken + n]);
      taken := taken + n;
    }
  }

  /** The first frame on the wire, field by field, and the rest. */
  lemma {:induction false} WireHead(k: Key, n: nat, frames: seq<Octets>)
    requires Sound(k) && Frameable(frames) && frames != []
    ensures var w, c := Wire(k, false, n, frames), k.enc(n, frames[0]);
      && |w| >= 2 + |c| && FromBe16(w[..2]) == |c| && k.dec(n, w[2..][..|c|]) == Some(frames[0])
      && w[2..][|c|..] == Wire(k, false, n + 1, frames[1..])
  {
    assert frames[0] in frames;
    var c := k.enc(n, frames[0]);
    Be16Back(|c|);
    var w := Wire(k, false, n, frames);
    var rest := c + Wire(k, false, n + 1, frames[1..]);
    assert w == Be16(|c|) + rest;
    assert w[..2] == Be16(|c|) && w[2..] == rest;
    assert rest[..|c|] == c;
  }

  lemma {:induction false} WireNext(before: Octets, k: Key, n: nat, chunks: seq<Octets>, i: nat)
    requires i < |chunks|
    ensures before + Wire(k, false, n, chunks[..i]) + Frame(false, k.enc(n + i, chunks[i])) == before + Wire(k, false, n, chunks[..i + 1])
  {
    assert chunks[..i + 1] == chunks[..i] + [chunks[i]];
    WireSplit(k, false, n, chunks[..i], [chunks[i]]);
    WireOne(k, false, n + i, chunks[i]);
    Associative(before, Wire(k, false, n, chunks[..i]), Frame(false, k.enc(n + i, chunks[i])));
  }

  /** Everything read, and everything the frames to come hold: reading a frame moves its plaintext over. */
  ghost predicate Moving(buf: Octets, chunks: seq<Octets>, whole: Octets) {
    Frameable(chunks) && buf + Flatten(chunks) == whole
  }

  lemma {:induction false} MoveOne(buf: Octets, chunks: seq<Octets>, whole: Octets)
    requires Moving(buf, chunks, whole) && chunks != []
    ensures Moving(buf + chunks[0], chunks[1..], whole)
  {
    Associative(buf, chunks[0], Flatten(chunks[1..]));
    assert forall c | c in chunks[1..] :: c in chunks;
  }

  lemma {:induction false} AllMoved(buf: Octets, chunks: seq<Octets>, whole: Octets)
    requires Moving(buf, chunks, whole)
    ensures chunks == [] <==> |buf| >= |whole|
    ensures |buf| <= |whole| && buf == whole[..|buf|]
  {
    if chunks != [] { assert chunks[0] in chunks; }
  }

  /** Taking the first `n` bytes out of the buffer takes them off the whole. */
  lemma {:induction false} Drain(buf: Octets, chunks: seq<Octets>, whole: Octets, n: nat)
    requires Moving(buf, chunks, whole) && n <= |buf|
    ensures n <= |whole| && Moving(buf[n..], chunks, whole[n..])
  {
    assert (buf + Flatten(chunks))[n..] == buf[n..] + Flatten(chunks);
  }

  lemma {:induction false} FrameableSplit(a: seq<Octets>, b: seq<Octets>)
    ensures Frameable(a + b) <==> Frameable(a) && Frameable(b)
  {
    if Frameable(a + b) {
      forall c | c in a ensures 0 < |c| <= MAX_PLAINTEXT { assert c in a + b; }
      forall c | c in b ensures 0 < |c| <= MAX_PLAINTEXT { assert c in a + b; }
    }
  }

  class NoiseTransport {
    const sendKey: Key
    const recvKey: Key
    const tx: Tcp
    const rx: Tcp
    var sendNonce: nat
    var recvNonce: nat
    var readBuf: Octets

    constructor (sendKey: Key, recvKey: Key, tx: Tcp, rx: Tcp)
      ensures this.sendKey == sendKey && this.recvKey == recvKey && this.tx == tx && this.rx == rx
      ensures sendNonce == 0 && recvNonce == 0 && readBuf == []
    {
      this.sendKey, this.recvKey, this.tx, this.rx := sendKey, recvKey, tx, rx;
      sendNonce, recvNonce, readBuf := 0, 0, [];
    }

    /** Encrypt and write one chunk. */
    method SendChunk(chunk: Octets)
      requires tx.Valid() && Sound(sendKey) && |chunk| <= MAX_PLAINTEXT
      modifies `sendNonce, tx
      ensures tx.Valid() && sendNonce == old(sendNonce) + 1
      ensures tx.Tail() == old(tx.Tail()) + Frame(false, sendKey.enc(old(sendNonce), chunk))
    {
      var ciphertext := sendKey.enc(sendNonce, chunk);
      sendNonce := sendNonce + 1;
      tx.WriteAll(Be16(|ciphertext|));
      tx.WriteAll(ciphertext);
      Associative(old(tx.Tail()), Be16(|ciphertext|), ciphertext);
      assert Frame(false, ciphertext) == Be16(|ciphertext|) + ciphertext;
    }

    method SendChunks(chunks: seq<Octets>)
      requires tx.Valid() && Sound(sendKey) && Frameable(chunks)
      modifies `sendNonce, tx
      ensures tx.Valid() && sendNonce == old(sendNonce) + |chunks|
      ensures tx.Tail() == old(tx.Tail()) + Wire(sendKey, false, old(sendNonce), chunks)
    {
      for i := 0 to |chunks|
        invariant tx.Valid() && sendNonce == old(sendNonce) + i
        invariant tx.Tail() == old(tx.Tail()) + Wire(sendKey, false, old(sendNonce), chunks[..i])
      {
        SendChunk(chunks[i]);
        WireNext(old(tx.Tail()), sendKey, old(sendNonce), chunks, i);
      }
      assert chunks[..|chunks|] == chunks;
    }

    /** The message goes out whole, in frames of at most 65535 bytes under consecutive nonces, or not at all. */
    method SendRaw(m: Octets) returns (r: Result<(), SdkError>)
      requires tx.Valid() && Sound(sendKey)
      modifies `sendNonce, tx
      ensures tx.Valid()
      ensures r == if |m| % TWO_32 > MAX_FRAME_BYTES then Err(OutgoingTooLarge) else Ok(())
      ensures r.Err? ==> sendNonce == old(sendNonce) && tx.Tail() == old(tx.Tail())
      ensures r.Ok? ==>
                && sendNonce == old(sendNonce) + |Chunks(AppFrame(m))|
                && tx.Tail() == old(tx.Tail()) + Wire(sendKey, false, old(sendNonce), Chunks(AppFrame(m)))
    {
      var appLen := |m| % TWO_32;
      if appLen > MAX_FRAME_BYTES { return Err(OutgoingTooLarge); }
      ChunksFrameable(AppFrame(m));
      SendChunks(Chunks(Be32(appLen) + m));
      r := Ok(());
    }

    /** Read and decrypt one frame, the encryption of `f`, if there is one. */
    method ReadFrame(ghost frames: seq<Octets>) returns (r: Result<(), SdkError>)
      requires rx.Valid() && Sound(recvKey) && Frameable(frames) && rx.Tail() == Wire(recvKey, false, recvNonce, frames)
      modifies `recvNonce, `readBuf, rx
      ensures rx.Valid() && r == if frames == [] then Err(NodeUnreachable) else Ok(())
      ensures r.Err? ==> recvNonce == old(recvNonce) && readBuf == old(readBuf) && rx.Tail() == old(rx.Tail())
      ensures r.Ok? ==>
                && recvNonce == old(recvNonce) + 1 && readBuf == old(readBuf) + frames[0]
                && rx.Tail() == Wire(recvKey, false, recvNonce, frames[1..])
    {
      if frames != [] { WireHead(recvKey, recvNonce, frames); }
      var lenBuf := rx.ReadExact(2);
      if lenBuf.None? { return Err(NodeUnreachable); }
      var encBuf := rx.ReadExact(FromBe16(lenBuf.value));
      if encBuf.None? { return Err(ShortBody); }
      var out := recvKey.dec(recvNonce, encBuf.value);
      if out.None? { return Err(Decryption); }
      recvNonce := recvNonce + 1;
      readBuf := readBuf + out.value;
      r := Ok(());
    }
  
    /** What `FillBufTo` is told about the wire: the rest of this message, `chunks`, and then `later`. */
    ghost predicate Awaits(chunks: seq<Octets>, later: seq<Octets>, whole: Octets)
      reads this, rx
    {
      && rx.Valid() && Sound(recvKey) && Frameable(later) && Moving(readBuf, chunks, whole)
      && rx.Tail() == Wire(recvKey, false, recvNonce, chunks + later)
    }

    /** Reads frames until there are `target` bytes, never touching those of later messages. */
    method FillBufTo(target: nat, ghost chunks: seq<Octets>, ghost later: seq<Octets>, ghost whole: Octets)
      returns (r: Result<(), SdkError>, ghost rest: seq<Octets>)
      requires Awaits(chunks, later, whole) && (target <= |whole| || later == [])
      modifies `recvNonce, `readBuf, rx
      ensures Awaits(rest, later, whole) && recvNonce + |rest| == old(recvNonce) + |chunks|
      ensures r == if target <= |whole| then Ok(()) else Err(NodeUnreachable)
      ensures r.Ok? ==> |readBuf| >= target
      ensures r.Err? ==> readBuf == whole && rest == []
    {
      rest := chunks;
      while |readBuf| < target
        invariant Awaits(rest, later, whole) && recvNonce + |rest| == old(recvNonce) + |chunks|
        decreases |rest|
      {
        FrameableSplit(rest, later);
        AllMoved(readBuf, rest, whole);
        if rest != [] {
          MoveOne(readBuf, rest, whole);
          assert (rest + later)[1..] == rest[1..] + later;
        }
        r := ReadFrame(rest + later);
        if r.Err? {
          assert readBuf == whole[..|readBuf|];
          return;
        }
        rest := rest[1..];
      }
      AllMoved(readBuf, rest, whole);
      r := Ok(());
    }
  
    /** The length field of the next message. */
    method ReadLength(ghost chunks: seq<Octets>, ghost later: seq<Octets>, ghost whole: Octets)
      returns (r: Result<nat, SdkError>, ghost rest: seq<Octets>)
      requires Awaits(chunks, later, whole) && (4 <= |whole| || later == [])
      modifies `recvNonce, `readBuf, rx
      ensures Awaits(rest, later, whole) && recvNonce + |rest| == old(recvNonce) + |chunks|
      ensures r == if |whole| < 4 then Err(NodeUnreachable) else Ok(FromBe32(whole[..4]))
    {
      var filled;
      filled, rest := FillBufTo(4, chunks, later, whole);
      if filled.Err? { return Err(filled.error), rest; }
      AllMoved(readBuf, rest, whole);
      assert readBuf[..4] == whole[..4];
      r := Ok(FromBe32(readBuf[..4]));
    }

    /** Take the payload out of the buffer, with its length. */
    method TakePayload(frameLen: nat, ghost rest: seq<Octets>, ghost later: seq<Octets>, ghost whole: Octets) returns (payload: Octets)
      requires Awaits(rest, later, whole) && 4 + frameLen <= |readBuf|
      modifies `readBuf
      ensures |whole| >= 4 + frameLen && payload == whole[4..4 + frameLen] && Awaits(rest, later, whole[4 + frameLen..])
    {
      AllMoved(readBuf, rest, whole);
      Drain(readBuf, rest, whole, 4 + frameLen);
      payload := readBuf[4..4 + frameLen];
      assert payload == whole[..|readBuf|][4..4 + frameLen];
      readBuf := readBuf[4 + frameLen..];
    }

    /** Receive the bytes that the length announces. */
    method RecvBody(frameLen: nat, ghost chunks: seq<Octets>, ghost later: seq<Octets>, ghost whole: Octets)
      returns (r: Result<Octets, SdkError>, ghost rest: seq<Octets>)
      requires Awaits(chunks, later, whole) && (4 + frameLen <= |whole| || later == [])
      modifies `recvNonce, `readBuf, rx
      ensures r == if 4 + frameLen <= |whole| then Ok(whole[4..4 + frameLen]) else Err(NodeUnreachable)
      ensures recvNonce + |rest| == old(recvNonce) + |chunks|
      ensures r.Ok? ==> |r.value| == frameLen && |whole| >= 4 + |r.value| && Awaits(rest, later, whole[4 + |r.value|..])
      ensures r.Err? ==> Awaits(rest, later, whole)
    {
      var filled;
      filled, rest := FillBufTo(4 + frameLen, chunks, later, whole);
      if filled.Err? { return Err(filled.error), rest; }
      var payload := TakePayload(frameLen, rest, later, whole);
      assert |payload| == frameLen;
      r := Ok(payload);
    }

    /**
     Receive the next message.  `whole` is what is buffered and what the frames `chunks` bring, `later` the
     frames behind them; the result is what `Parse` makes of `whole`.  A message received is gone from the
     transport; after an error nothing has been dropped, so the next call starts from the same bytes.
     */
    method RecvRaw(ghost chunks: seq<Octets>, ghost later: seq<Octets>, ghost whole: Octets)
      returns (r: Result<Octets, SdkError>, ghost rest: seq<Octets>)
      requires Awaits(chunks, later, whole) && (later == [] || Covers(whole))
      modifies `recvNonce, `readBuf, rx
      ensures r == Parse(whole) && recvNonce + |rest| == old(recvNonce) + |chunks|
      ensures r.Ok? ==> |whole| >= 4 + |r.value| && Awaits(rest, later, whole[4 + |r.value|..])
      ensures r.Err? ==> Awaits(rest, later, whole)
    {
      var header;
      header, rest := ReadLength(chunks, later, whole);
      if header.Err? { return Err(header.error), rest; }
      var frameLen := header.value;
      if frameLen > MAX_FRAME_BYTES { return Err(IncomingTooLarge), rest; }
      if frameLen == 0 { return Err(EmptyFrame), rest; }
      ghost var n := FromBe32(whole[..4]);
      ParseBy(whole, n);
      r, rest := RecvBody(frameLen, rest, later, whole);
    }
  }

  // ------------------------------------------------------------- sessions

  ghost predicate Sendable(ms: seq<Octets>) {
    forall m | m in ms :: 0 < |m| <= MAX_FRAME_BYTES
  }

  /** Between the receiver's nonce and the sender's lie the frames of the pending messages, one nonce a frame. */
  ghost predicate InFlight(k: Key, from: nat, upTo: nat, pending: seq<Octets>, tail: Octets) {
    && Sendable(pending) && upTo == from + |AllChunks(pending)|
    && tail == Wire(k, false, from, AllChunks(pending))
  }

  /** `a` sends to `b`, and `pending` are the messages sent and not yet received. */
  ghost predicate InStep(a: NoiseTransport, b: NoiseTransport, pending: seq<Octets>)
    reads a, b, a.tx, b.rx
  {
    && a != b && a.tx == b.rx && b.rx.Valid() && a.sendKey == b.recvKey && Sound(a.sendKey)
    && b.readBuf == [] && InFlight(a.sendKey, b.recvNonce, a.sendNonce, pending, b.rx.Tail())
  }

  lemma {:induction false} AllFrameable(ms: seq<Octets>)
    ensures Frameable(AllChunks(ms))
  {
    if ms != [] {
      ChunksFrameable(AppFrame(ms[0]));
      AllFrameable(ms[1..]);
      FrameableSplit(Chunks(AppFrame(ms[0])), AllChunks(ms[1..]));
    }
  }

  lemma {:induction false} PendingMore(k: Key, from: nat, upTo: nat, pending: seq<Octets>, tail: Octets, m: Octets, chunks: seq<Octets>)
    requires InFlight(k, from, upTo, pending, tail) && 0 < |m| <= MAX_FRAME_BYTES && chunks == Chunks(AppFrame(m))
    ensures InFlight(k, from, upTo + |chunks|, pending + [m], tail + Wire(k, false, upTo, chunks))
  {
    AllChunksMore(pending, m);
    WireSplit(k, false, from, AllChunks(pending), chunks);
  }

  method SendOne(a: NoiseTransport, b: NoiseTransport, ghost pending: seq<Octets>, m: Octets)
    requires InStep(a, b, pending) && 0 < |m| <= MAX_FRAME_BYTES
    modifies a`sendNonce, a.tx
    ensures InStep(a, b, pending + [m])
  {
    ghost var upTo, tail := a.sendNonce, b.rx.Tail();
    var r := a.SendRaw(m);
    assert r.Ok?;
    PendingMore(a.sendKey, b.recvNonce, upTo, pending, tail, m, Chunks(AppFrame(m)));
  }

  /** What the receiver is about to read: the frames of the oldest pending message, then those of the others. */
  lemma {:induction false} NextMessage(pending: seq<Octets>) returns (chunks: seq<Octets>, later: seq<Octets>, whole: Octets)
    requires Sendable(pending)
    ensures chunks + later == AllChunks(pending) && Frameable(later) && Moving([], chunks, whole)
    ensures later == [] || Covers(whole)
    ensures Parse(whole) == if pending == [] then Err(NodeUnreachable) else Ok(pending[0])
    ensures if pending == [] then later == [] && whole == []
            else later == AllChunks(pending[1..]) && |whole| == 4 + |pending[0]|
  {
    chunks, later, whole := [], [], [];
    if pending != [] {
      assert pending[0] in pending;
      chunks, later, whole := Chunks(AppFrame(pending[0])), AllChunks(pending[1..]), AppFrame(pending[0]);
      ChunksFrameable(whole);
      AllFrameable(pending[1..]);
      ParseAppFrame(pending[0]);
      assert [] + whole == whole;
    }
  }

  /** The oldest pending message, as it was sent; or `NodeUnreachable` and nothing changed when there is none. */
  method RecvOne(a: NoiseTransport, b: NoiseTransport, ghost pending: seq<Octets>) returns (r: Result<Octets, SdkError>)
    requires InStep(a, b, pending)
    modifies b`recvNonce, b`readBuf, b.rx
    ensures r == if pending == [] then Err(NodeUnreachable) else Ok(pending[0])
    ensures InStep(a, b, if pending == [] then [] else pending[1..])
  {
    ghost var chunks, later, whole := NextMessage(pending);
    ghost var rest, from, upTo;
    from, upTo := b.recvNonce, a.sendNonce;
    r, rest := b.RecvRaw(chunks, later, whole);
    Received(a.sendKey, from, upTo, pending, chunks, later, b.recvNonce, b.rx.Tail(), b.readBuf, rest);
  }

  /** What is in flight once the frames of the oldest message have been taken. */
  lemma {:induction false} Received(k: Key, from: nat, upTo: nat, pending: seq<Octets>, chunks: seq<Octets>, later: seq<Octets>,
                                    from': nat, tail: Octets, buf: Octets, rest: seq<Octets>)
    requires Sendable(pending) && upTo == from + |chunks + later| && from' + |rest| == from + |chunks|
    requires later == if pending == [] then [] else AllChunks(pending[1..])
    requires Moving(buf, rest, []) && tail == Wire(k, false, from', rest + later)
    ensures buf == [] && InFlight(k, from', upTo, if pending == [] then [] else pending[1..], tail)
  {
    AllMoved(buf, rest, []);
    assert rest + later == later;
  }

  lemma {:induction false} MoveFirst<T>(a: seq<T>, b: seq<T>)
    requires b != []
    ensures a + b == a + [b[0]] + b[1..]
  {
  }

  datatype Call = Send(m: Octets) | Recv

  function Sent(script: seq<Call>): seq<Octets> {
    if script == [] then []
    else
      var last := script[|script| - 1];
      Sent(script[..|script| - 1]) + if last.Send? then [last.m] else []
  }

  /** Any run: the messages received, then those still pending, are the messages sent, in order; nonces stay in step. */
  method AnyRun(a: NoiseTransport, b: NoiseTransport, script: seq<Call>) returns (received: seq<Octets>, ghost pending: seq<Octets>)
    requires InStep(a, b, []) && forall c | c in script && c.Send? :: 0 < |c.m| <= MAX_FRAME_BYTES
    modifies a`sendNonce, a.tx, b`recvNonce, b`readBuf, b.rx
    ensures InStep(a, b, pending) && received + pending == Sent(script)
    ensures pending == [] ==> a.sendNonce == b.recvNonce
  {
    received, pending := [], [];
    for i := 0 to |script|
      invariant InStep(a, b, pending) && received + pending == Sent(script[..i])
    {
      assert script[..i + 1][..i] == script[..i];
      match script[i] {
        case Send(m) =>
          SendOne(a, b, pending, m);
          Associative(received, pending, [m]);
          pending := pending + [m];
        case Recv =>
          var r := RecvOne(a, b, pending);
          if r.Ok? {
            MoveFirst(received, pending);
            received, pending := received + [r.value], pending[1..];
          }
      }
    }
    assert script[..|script|] == script;
  }
}
