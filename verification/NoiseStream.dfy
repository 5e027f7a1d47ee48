/**
 The encrypted stream: `poll_write`, `poll_flush` and `poll_read` over an inner
 transport that may accept or deliver any part of what it is asked for, wait, or fail.
 */
module NoiseStream {
  import opened Basics
  import opened Cipher

  datatype Poll<+T> = Ready(value: T) | Pending | Failed

  /** Whether a poll of the transport went through, must wait, or failed. */
  datatype Answer = Went | Waits | Fails

  function AnswerOf<T>(p: Poll<T>): Answer {
    match p
    case Ready(_) => Went
    case Pending => Waits
    case Failed => Fails
  }

  /** The transport was asked since `before`, and answered `a` the last time. */
  predicate Answered(before: seq<Answer>, now: seq<Answer>, a: Answer) {
    |before| < |now| && now[|now| - 1] == a
  }

  /** One direction of the inner transport.  Whatever is chosen here is the network's choice. */
  class Pipe {
    var sent: Octets
    var taken: nat
    var closed: bool
    /** What it has answered so far to being polled. */
    var answers: seq<Answer>

    constructor ()
      ensures sent == [] && taken == 0 && !closed && answers == []
    {
      sent, taken, closed, answers := [], 0, false, [];
    }

    /** A ready write accepts at least one byte. */
    method PollWrite(data: Octets) returns (r: Poll<nat>)
      requires data != []
      modifies this`sent, this`answers
      ensures answers == old(answers) + [AnswerOf(r)]
      ensures r.Ready? ==> 1 <= r.value <= |data| && sent == old(sent) + data[..r.value]
      ensures !r.Ready? ==> sent == old(sent)
    {
      var n: nat :| n <= |data|;
      if n > 0 {
        sent := sent + data[..n];
        r := Ready(n);
      } else {
        var fail: bool := *;
        r := if fail then Failed else Pending;
      }
      answers := answers + [AnswerOf(r)];
    }

    method PollFlush() returns (r: Poll<()>)
      modifies this`answers
      ensures answers == old(answers) + [AnswerOf(r)]
    {
      var n: nat := *;
      r := if n == 0 then Failed else if n == 1 then Pending else Ready(());
      answers := answers + [AnswerOf(r)];
    }

    /** A ready read of no bytes is the end of the stream. */
    method PollRead(max: nat) returns (r: Poll<Octets>)
      requires max > 0 && taken <= |sent|
      modifies this`taken, this`answers
      ensures answers == old(answers) + [AnswerOf(r)]
      ensures r.Ready? ==> old(taken) <= taken <= |sent| && taken <= old(taken) + max && r.value == sent[old(taken)..taken]
      ensures r.Ready? && r.value == [] ==> closed && taken == |sent|
      ensures closed && old(taken) == |sent| ==> r == Ready([])
      ensures !r.Ready? ==> taken == old(taken)
    {
      var n: nat :| n <= max && taken + n <= |sent|;
      if n > 0 || (closed && taken == |sent|) {
        r := Ready(sent[taken..taken + n]);
        taken := taken + n;
      } else {
        var fail: bool := *;
        r := if fail then Failed else Pending;
      }
      answers := answers + [AnswerOf(r)];
    }
  }

  /** Outcomes of `poll_read`. */
  datatype ReadResult = Data(bytes: Octets) | Eof | ReadPending | ReadFailed | UnexpectedEof | InvalidData

  /** What has been sent and what is still buffered is the wire of the accepted plaintexts. */
  ghost predicate Queued(k: Key, isWasm: bool, frames: seq<Octets>, sent: Octets, buf: Octets, consumed: nat) {
    consumed <= |buf| && sent + buf[consumed..] == Wire(k, isWasm, 0, frames)
  }

  /** What the reader holds and has taken off the wire is the wire of whole frames and a rest. */
  ghost predicate Aligned(k: Key, isWasm: bool, frames: seq<Octets>, done: nat, sent: Octets, taken: nat, rest: Octets) {
    && done <= |frames| && taken <= |sent|
    && sent <= Wire(k, isWasm, 0, frames)
    && sent[..taken] == Wire(k, isWasm, 0, frames[..done]) + rest
  }

  /** The rest, and what is still on its way, is the beginning of the frames to come. */
  lemma {:induction false} RestIsNext(k: Key, isWasm: bool, frames: seq<Octets>, done: nat, sent: Octets, taken: nat, rest: Octets)
    requires Aligned(k, isWasm, frames, done, sent, taken, rest)
    ensures rest <= Wire(k, isWasm, done, frames[done..])
    ensures taken == |sent| == |Wire(k, isWasm, 0, frames)| ==> rest == Wire(k, isWasm, done, frames[done..])
  {
    WireSplit(k, isWasm, 0, frames[..done], frames[done..]);
    assert frames[..done] + frames[done..] == frames;
    var a, b := Wire(k, isWasm, 0, frames[..done]), Wire(k, isWasm, done, frames[done..]);
    assert sent[..taken] <= a + b;
    forall i | 0 <= i < |rest| ensures rest[i] == b[i] {
      assert sent[..taken][|a| + i] == (a + b)[|a| + i];
    }
  }

  /** A complete header tells the length of the next frame; a complete frame is its ciphertext. */
  lemma {:induction false} NextFrame(k: Key, isWasm: bool, frames: seq<Octets>, done: nat, rest: Octets)
    requires Sound(k) && Fit(frames) && done <= |frames| && |rest| >= HeaderLen(isWasm)
    requires rest <= Wire(k, isWasm, done, frames[done..])
    ensures done < |frames|
    ensures var c := k.enc(done, frames[done]);
      var total := HeaderLen(isWasm) + |c|;
      && FromBe16(rest[..2]) == |c|
      && (|rest| >= total ==> rest[..total] == Frame(isWasm, c) && rest[HeaderLen(isWasm)..total] == c)
  {
    assert frames[done..] != [];
    var f := frames[done..][0];
    assert f == frames[done] && f in frames;
    var c := k.enc(done, f);
    var frame := Frame(isWasm, c);
    assert |c| == |f| + TAG_LEN;
    assert rest[..2] == frame[..2] == Be16(|c|);
    Be16Back(|c|);
    var h := HeaderLen(isWasm);
    assert frame[h..] == c;
    if |rest| >= h + |c| {
      assert rest[..h + |c|] == frame;
    }
  }

  lemma {:induction false} WireMore(k: Key, isWasm: bool, frames: seq<Octets>, f: Octets)
    ensures Wire(k, isWasm, 0, frames + [f]) == Wire(k, isWasm, 0, frames) + Frame(isWasm, k.enc(|frames|, f))
  {
    WireSplit(k, isWasm, 0, frames, [f]);
    WireOne(k, isWasm, |frames|, f);
  }

  /** What was handed out, and what is decrypted and waits, is the plaintext of the first `done` frames. */
  ghost predicate Delivered(frames: seq<Octets>, done: nat, delivered: Octets, pending: Octets)
    requires done <= |frames|
  {
    delivered + pending == Flatten(frames[..done])
  }

  lemma {:induction false} DeliveredMore(frames: seq<Octets>, done: nat, delivered: Octets)
    requires done < |frames| && Delivered(frames, done, delivered, [])
    ensures Delivered(frames, done + 1, delivered, frames[done])
  {
    assert delivered + [] == delivered;
    assert frames[..done + 1] == frames[..done] + [frames[done]];
    FlattenSplit(frames[..done], [frames[done]]);
    FlattenOne(frames[done]);
  }

  lemma {:induction false} HandOut(frames: seq<Octets>, done: nat, delivered: Octets, pending: Octets, n: nat)
    requires done <= |frames| && n <= |pending| && Delivered(frames, done, delivered, pending)
    ensures Delivered(frames, done, delivered + pending[..n], pending[n..])
  {
    assert pending == pending[..n] + pending[n..];
    Associative(delivered, pending[..n], pending[n..]);
  }

  lemma {:induction false} WireUpTo(k: Key, isWasm: bool, frames: seq<Octets>, done: nat)
    requires done < |frames|
    ensures Wire(k, isWasm, 0, frames[..done + 1]) == Wire(k, isWasm, 0, frames[..done]) + Frame(isWasm, k.enc(done, frames[done]))
  {
    assert frames[..done + 1] == frames[..done] + [frames[done]];
    WireMore(k, isWasm, frames[..done], frames[done]);
  }

  /** Taking the next whole frame off the rest keeps it aligned. */
  lemma {:induction false} FrameDone(k: Key, isWasm: bool, frames: seq<Octets>, done: nat, sent: Octets, taken: nat, rest: Octets, total: nat)
    requires Sound(k) && Fit(frames) && Aligned(k, isWasm, frames, done, sent, taken, rest)
    requires HeaderLen(isWasm) <= total <= |rest| && total == HeaderLen(isWasm) + FromBe16(rest[..2])
    ensures done < |frames| && k.dec(done, rest[HeaderLen(isWasm)..total]) == Some(frames[done])
    ensures Aligned(k, isWasm, frames, done + 1, sent, taken, rest[total..])
  {
    RestIsNext(k, isWasm, frames, done, sent, taken, rest);
    NextFrame(k, isWasm, frames, done, rest);
    WireUpTo(k, isWasm, frames, done);
    var f := Frame(isWasm, k.enc(done, frames[done]));
    assert rest == f + rest[total..];
    Associative(Wire(k, isWasm, 0, frames[..done]), f, rest[total..]);
  }

  lemma {:induction false} Moved(k: Key, isWasm: bool, frames: seq<Octets>, sent: Octets, buf: Octets, i: nat, n: nat)
    requires Queued(k, isWasm, frames, sent, buf, i) && i + n <= |buf|
    ensures Queued(k, isWasm, frames, sent + buf[i..][..n], buf, i + n)
  {
    assert buf[i..] == buf[i..][..n] + buf[i + n..];
    Associative(sent, buf[i..][..n], buf[i + n..]);
  }

  lemma {:induction false} AllSent(k: Key, isWasm: bool, frames: seq<Octets>, sent: Octets, buf: Octets)
    requires Queued(k, isWasm, frames, sent, buf, |buf|)
    ensures sent == Wire(k, isWasm, 0, frames) && Queued(k, isWasm, frames, sent, [], 0)
  {
    assert buf[|buf|..] == [];
  }

  lemma {:induction false} QueuedMore(k: Key, isWasm: bool, frames: seq<Octets>, sent: Octets, f: Octets)
    requires Queued(k, isWasm, frames, sent, [], 0) && Fit(frames) && |f| <= MAX_PLAINTEXT
    ensures Queued(k, isWasm, frames + [f], sent, Frame(isWasm, k.enc(|frames|, f)), 0) && Fit(frames + [f])
  {
    WireMore(k, isWasm, frames, f);
    var frame := Frame(isWasm, k.enc(|frames|, f));
    assert frame[0..] == frame && sent + [][0..] == sent;
  }

  /** At most `cap` bytes of `data`. */
  function Cut(data: Octets, cap: nat): Octets {
    if |data| <= cap then data else data[..cap]
  }

  datatype FillResult = Enough | More | End | NotYet | Broken

  class NoiseStream {
    const isWasm: bool
    const sendKey: Key
    const recvKey: Key
    const outgoing: Pipe
    const incoming: Pipe
    var readBuf: Octets
    var decryptBuf: Octets
    var writeBuf: Octets
    var writeConsumed: nat
    var readNonce: nat
    var writeNonce: nat
    /** The plaintexts accepted for sending, one a frame. */
    ghost var accepted: seq<Octets>
    /** The plaintext handed to the reader so far. */
    ghost var delivered: Octets

    constructor (isWasm: bool, sendKey: Key, recvKey: Key, outgoing: Pipe, incoming: Pipe)
      requires outgoing.sent == [] && incoming.sent == [] && incoming.taken == 0
      ensures this.isWasm == isWasm && this.sendKey == sendKey && this.recvKey == recvKey
      ensures this.outgoing == outgoing && this.incoming == incoming
      ensures accepted == [] && delivered == [] && WriterOk() && ReaderOk([])
    {
      this.isWasm, this.sendKey, this.recvKey, this.outgoing, this.incoming := isWasm, sendKey, recvKey, outgoing, incoming;
      readBuf, decryptBuf, writeBuf, writeConsumed, readNonce, writeNonce := [], [], [], 0, 0, 0;
      accepted, delivered := [], [];
    }

    /** One nonce a frame: the accepted plaintexts are on the wire under nonces 0, 1, 2, … */
    ghost predicate WriterOk()
      reads `writeBuf, `writeConsumed, `writeNonce, `accepted, outgoing`sent
    {
      && writeNonce == |accepted| && Fit(accepted) && Queued(sendKey, isWasm, accepted, outgoing.sent, writeBuf, writeConsumed)
    }

    /** Relative to the plaintexts `frames` the peer accepted. */
    ghost predicate ReaderOk(frames: seq<Octets>)
      reads `readBuf, `decryptBuf, `readNonce, `delivered, incoming`sent, incoming`taken
    {
      && Aligned(recvKey, isWasm, frames, readNonce, incoming.sent, incoming.taken, readBuf)
      && Delivered(frames, readNonce, delivered, decryptBuf)
    }

    /** The transport has ended with at least `low` but fewer than `high` bytes of a frame in the buffer. */
    ghost predicate EndsEarly(low: nat, high: nat)
      reads `readBuf, incoming
    {
      incoming.closed && incoming.taken == |incoming.sent| && low <= |readBuf| < high
    }

    /** A whole frame is in the buffer. */
    ghost predicate Complete()
      reads `readBuf
    {
      |readBuf| >= HeaderLen(isWasm) && |readBuf| >= FrameLen()
    }

    /** The length of the frame whose header is in the buffer. */
    ghost function FrameLen(): nat
      reads `readBuf
    {
      if |readBuf| < 2 then 0 else HeaderLen(isWasm) + FromBe16(readBuf[..2])
    }

    /** One write of what is buffered, as much of it as the transport takes. */
    method PushSome() returns (p: Poll<nat>)
      requires WriterOk() && writeConsumed < |writeBuf|
      modifies `writeConsumed, outgoing`sent, outgoing`answers
      ensures WriterOk() && old(outgoing.sent) <= outgoing.sent
      ensures p.Ready? ==> writeConsumed > old(writeConsumed)
      ensures outgoing.answers == old(outgoing.answers) + [AnswerOf(p)]
    {
      p := outgoing.PollWrite(writeBuf[writeConsumed..]);
      if p.Ready? {
        Moved(sendKey, isWasm, accepted, old(outgoing.sent), writeBuf, writeConsumed, p.value);
        writeConsumed := writeConsumed + p.value;
      }
    }

    method PollFlush() returns (r: Poll<()>)
      requires WriterOk()
      modifies `writeBuf, `writeConsumed, outgoing`sent, outgoing`answers
      ensures WriterOk() && old(outgoing.sent) <= outgoing.sent
      ensures r.Ready? ==> writeBuf == [] && writeConsumed == 0
      ensures !r.Ready? ==> Answered(old(outgoing.answers), outgoing.answers, AnswerOf(r))
    {
      while writeConsumed < |writeBuf|
        invariant WriterOk() && old(outgoing.sent) <= outgoing.sent && |old(outgoing.answers)| <= |outgoing.answers|
        decreases |writeBuf| - writeConsumed
      {
        var p := PushSome();
        match p {
          case Ready(_) =>
          case Failed => return Failed;
          case Pending => return Pending;
        }
      }
      AllSent(sendKey, isWasm, accepted, outgoing.sent, writeBuf);
      writeBuf, writeConsumed := [], 0;
      r := outgoing.PollFlush();
    }

    /** Length, padding and ciphertext go to the write buffer. */
    method Enqueue(encrypted: Octets)
      requires writeBuf == []
      modifies `writeBuf, `writeConsumed
      ensures writeBuf == Frame(isWasm, encrypted) && writeConsumed == 0
    {
      writeBuf := writeBuf + Be16(|encrypted|);
      if isWasm {
        writeBuf := writeBuf + [0, 0, 0, 0, 0, 0];
      }
      writeBuf := writeBuf + encrypted;
      writeConsumed := 0;
    }

    /** Accepts a prefix of `buf` as one frame under the next nonce; nothing only while an earlier frame is not out yet. */
    method PollWrite(buf: Octets) returns (r: Poll<nat>)
      requires WriterOk() && Sound(sendKey)
      modifies `writeBuf, `writeConsumed, `writeNonce, `accepted, outgoing`sent, outgoing`answers
      ensures WriterOk() && old(outgoing.sent) <= outgoing.sent
      ensures r.Ready? ==> accepted == old(accepted) + [Cut(buf, MAX_PLAINTEXT)] && r.value == |Cut(buf, MAX_PLAINTEXT)|
      ensures !r.Ready? ==> accepted == old(accepted) && Answered(old(outgoing.answers), outgoing.answers, AnswerOf(r))
      ensures old(writeBuf) == [] ==> r.Ready?
    {
      if writeBuf != [] {
        var p := PollFlush();
        match p {
          case Ready(_) =>
          case Failed => return Failed;
          case Pending => return Pending;
        }
      }
      var n := if |buf| <= MAX_PLAINTEXT then |buf| else MAX_PLAINTEXT;
      assert buf[..n] == Cut(buf, MAX_PLAINTEXT);
      var encrypted := sendKey.enc(writeNonce, buf[..n]);
      QueuedMore(sendKey, isWasm, accepted, outgoing.sent, buf[..n]);
      writeNonce := writeNonce + 1;
      accepted := accepted + [buf[..n]];
      Enqueue(encrypted);
      var _ := PollFlush();
      r := Ready(n);
    }

    /** Have `target` bytes in `readBuf`: one read of the missing ones, if any are. */
    method Fill(target: nat, ghost frames: seq<Octets>) returns (r: FillResult)
      requires ReaderOk(frames)
      modifies `readBuf, incoming`taken, incoming`answers
      ensures ReaderOk(frames) && old(incoming.taken) <= incoming.taken && old(readBuf) <= readBuf
      ensures r.Enough? ==> |readBuf| >= target && (|readBuf| > old(|readBuf|) ==> incoming.taken > old(incoming.taken))
      ensures r.Enough? && incoming.taken == old(incoming.taken) ==> readBuf == old(readBuf)
      ensures r.More? ==> incoming.taken > old(incoming.taken)
      ensures old(|readBuf|) >= target ==> r == Enough && readBuf == old(readBuf) && incoming.taken == old(incoming.taken)
      ensures incoming.closed && old(incoming.taken) == |incoming.sent| && old(|readBuf|) < target ==> r == End
      ensures r.End? ==> incoming.closed && incoming.taken == |incoming.sent| && readBuf == old(readBuf)
      ensures !r.Enough? ==> |readBuf| < target
      ensures |old(incoming.answers)| <= |incoming.answers|
      ensures r.NotYet? ==> Answered(old(incoming.answers), incoming.answers, Waits)
      ensures r.Broken? ==> Answered(old(incoming.answers), incoming.answers, Fails)
    {
      if |readBuf| >= target { return Enough; }
      var p := incoming.PollRead(target - |readBuf|);
      match p {
        case Ready(bytes) =>
          assert incoming.sent[..incoming.taken] == incoming.sent[..old(incoming.taken)] + bytes;
          readBuf := readBuf + bytes;
          r := if bytes == [] then End else if |readBuf| < target then More else Enough;
        case Pending => r := NotYet;
        case Failed => r := Broken;
      }
    }

    /** Decrypt the complete frame at the head of `readBuf`. */
    method Decrypt(total: nat, ghost frames: seq<Octets>) returns (ok: bool)
      requires ReaderOk(frames) && Sound(recvKey) && Fit(frames) && decryptBuf == []
      requires HeaderLen(isWasm) <= total <= |readBuf| && total == HeaderLen(isWasm) + FromBe16(readBuf[..2])
      modifies `readBuf, `decryptBuf, `readNonce
      ensures ok && ReaderOk(frames) && readNonce == old(readNonce) + 1 && |readBuf| < old(|readBuf|)
      ensures decryptBuf == frames[old(readNonce)]
    {
      FrameDone(recvKey, isWasm, frames, readNonce, incoming.sent, incoming.taken, readBuf, total);
      DeliveredMore(frames, readNonce, delivered);
      var decrypted := recvKey.dec(readNonce, readBuf[HeaderLen(isWasm)..total]);
      ok := decrypted.Some?;
      if ok {
        readNonce := readNonce + 1;
        decryptBuf := decryptBuf + decrypted.value;
        assert decryptBuf == decrypted.value;
        readBuf := readBuf[total..];
      }
    }

    /** Get the next frame in and decrypt it, as far as the transport delivers it. */
    method ReadFrame(ghost frames: seq<Octets>) returns (r: ReadResult, again: bool)
      requires ReaderOk(frames) && Sound(recvKey) && Fit(frames) && decryptBuf == []
      modifies `readBuf, `decryptBuf, `readNonce, incoming`taken, incoming`answers
      ensures ReaderOk(frames) && readNonce >= old(readNonce) && r != InvalidData && !r.Data?
      ensures old(incoming.taken) <= incoming.taken
      ensures again ==> incoming.taken > old(incoming.taken) || |readBuf| < old(|readBuf|)
      ensures !again ==> decryptBuf == [] && !Complete()
      ensures old(Complete()) ==> again && readNonce == old(readNonce) + 1 && decryptBuf == frames[old(readNonce)]
      ensures old(EndsEarly(0, HeaderLen(isWasm))) ==> !again && r == Eof
      ensures old(EndsEarly(HeaderLen(isWasm), FrameLen())) ==> !again && r == UnexpectedEof
      ensures |old(incoming.answers)| <= |incoming.answers|
      ensures !again && r.ReadPending? ==> Answered(old(incoming.answers), incoming.answers, Waits)
      ensures !again && r.ReadFailed? ==> Answered(old(incoming.answers), incoming.answers, Fails)
      ensures !again && r.Eof? ==> incoming.closed && incoming.taken == |incoming.sent| && |readBuf| < HeaderLen(isWasm)
      ensures !again && r.UnexpectedEof? ==>
                incoming.closed && incoming.taken == |incoming.sent| && |readBuf| >= HeaderLen(isWasm)
    {
      r, again := Eof, true;
      var p := Fill(HeaderLen(isWasm), frames);
      match p {
        case Enough =>
        case More => return;
        case End => return Eof, false;
        case NotYet => return ReadPending, false;
        case Broken => return ReadFailed, false;
      }
      var total := HeaderLen(isWasm) + FromBe16(readBuf[..2]);
      ghost var head := readBuf;
      p := Fill(total, frames);
      match p {
        case Enough =>
        case More => return;
        case End => return UnexpectedEof, false;
        case NotYet => return ReadPending, false;
        case Broken => return ReadFailed, false;
      }
      assert readBuf[..2] == head[..2];
      var ok := Decrypt(total, frames);
      if !ok { return InvalidData, false; }
    }

    /** Hand out the first `cap` bytes of what is decrypted. */
    method Deliver(cap: nat, ghost frames: seq<Octets>) returns (bytes: Octets)
      requires ReaderOk(frames)
      modifies `decryptBuf, `delivered
      ensures ReaderOk(frames) && bytes == Cut(old(decryptBuf), cap) && delivered == old(delivered) + bytes
    {
      var n := if |decryptBuf| <= cap then |decryptBuf| else cap;
      bytes := decryptBuf[..n];
      HandOut(frames, readNonce, delivered, decryptBuf, n);
      delivered := delivered + bytes;
      decryptBuf := decryptBuf[n..];
    }

    /**
     At most `cap` bytes of what the peer accepted, in order, none left out and none twice: first what is
     decrypted already, then the next frame as soon as it is there.
     */
    method PollRead(cap: nat, ghost frames: seq<Octets>) returns (r: ReadResult)
      requires ReaderOk(frames) && Sound(recvKey) && Fit(frames)
      modifies `readBuf, `decryptBuf, `readNonce, `delivered, incoming`taken, incoming`answers
      ensures ReaderOk(frames) && readNonce >= old(readNonce) && r != InvalidData
      ensures r.Data? ==> |r.bytes| <= cap && delivered == old(delivered) + r.bytes && (cap > 0 ==> r.bytes != [])
      ensures !r.Data? ==> delivered == old(delivered) && decryptBuf == [] && !Complete()
      ensures old(decryptBuf) != [] ==> r == Data(Cut(old(decryptBuf), cap))
      ensures old(decryptBuf == [] && Complete()) ==>
                && readNonce > old(readNonce)
                && (frames[old(readNonce)] != [] ==> r == Data(Cut(frames[old(readNonce)], cap)))
      ensures old(decryptBuf == [] && EndsEarly(0, HeaderLen(isWasm))) ==> r == Eof
      ensures old(decryptBuf == [] && EndsEarly(HeaderLen(isWasm), FrameLen())) ==> r == UnexpectedEof
      ensures r.ReadPending? ==> Answered(old(incoming.answers), incoming.answers, Waits)
      ensures r.ReadFailed? ==> Answered(old(incoming.answers), incoming.answers, Fails)
      ensures r.Eof? ==> incoming.closed && incoming.taken == |incoming.sent| && |readBuf| < HeaderLen(isWasm)
      ensures r.UnexpectedEof? ==> incoming.closed && incoming.taken == |incoming.sent| && |readBuf| >= HeaderLen(isWasm)
    {
      ghost var early := decryptBuf == [] && (EndsEarly(0, HeaderLen(isWasm)) || EndsEarly(HeaderLen(isWasm), FrameLen()));
      ghost var complete := decryptBuf == [] && Complete();
      while true
        invariant ReaderOk(frames) && readNonce >= old(readNonce) && delivered == old(delivered)
        invariant |old(incoming.answers)| <= |incoming.answers|
        invariant early || (complete && readNonce == old(readNonce)) ==>
                    decryptBuf == [] && readBuf == old(readBuf) && incoming.taken == old(incoming.taken)
        invariant old(decryptBuf) != [] ==> decryptBuf == old(decryptBuf)
        invariant complete && readNonce > old(readNonce) && frames[old(readNonce)] != [] ==> decryptBuf == frames[old(readNonce)]
        decreases |incoming.sent| - incoming.taken, |readBuf|
      {
        if decryptBuf != [] {
          var bytes := Deliver(cap, frames);
          return Data(bytes);
        }
        var again;
        r, again := ReadFrame(frames);
        if !again { return; }
      }
    }
  }

  // ------------------------------------------------------------- sessions

  /** `a` sends to `b`: same pipe, same key, same padding; both ends in order. */
  ghost predicate Linked(a: NoiseStream, b: NoiseStream)
    reads a, b, a.outgoing, b.incoming
  {
    && a != b && a.outgoing == b.incoming && a.sendKey == b.recvKey && a.isWasm == b.isWasm && Sound(a.sendKey)
    && a.WriterOk() && b.ReaderOk(a.accepted)
  }

  lemma {:induction false} PrefixTrans(a: Octets, b: Octets, c: Octets)
    requires a <= b <= c
    ensures a <= c
  {
  }

  /** More accepted plaintext, and more of it sent, leave the reader's side as it was. */
  lemma {:induction false} AlignedMore(k: Key, isWasm: bool, frames: seq<Octets>, done: nat, sent: Octets, taken: nat, rest: Octets,
                                       frames': seq<Octets>, sent': Octets)
    requires Aligned(k, isWasm, frames, done, sent, taken, rest)
    requires frames <= frames' && sent <= sent' && sent' <= Wire(k, isWasm, 0, frames')
    ensures Aligned(k, isWasm, frames', done, sent', taken, rest)
    ensures frames'[..done] == frames[..done]
  {
    assert sent'[..taken] == sent[..taken];
    assert frames'[..done] == frames[..done];
  }

  /** What was delivered is a prefix of what was accepted, and all of it once nothing is buffered or under way. */
  lemma {:induction false} Fidelity(k: Key, isWasm: bool, frames: seq<Octets>, sent: Octets, writeBuf: Octets, consumed: nat,
                                    done: nat, taken: nat, rest: Octets, delivered: Octets, pending: Octets)
    requires Queued(k, isWasm, frames, sent, writeBuf, consumed)
    requires Aligned(k, isWasm, frames, done, sent, taken, rest) && Delivered(frames, done, delivered, pending)
    ensures delivered <= Flatten(frames) && done <= |frames|
    ensures consumed == |writeBuf| && taken == |sent| && rest == [] && pending == [] ==> delivered == Flatten(frames) && done == |frames|
  {
    FlattenSplit(frames[..done], frames[done..]);
    assert frames[..done] + frames[done..] == frames;
    PrefixTrans(delivered, Flatten(frames[..done]), Flatten(frames));
    if consumed == |writeBuf| && taken == |sent| && rest == [] && pending == [] {
      AllSent(k, isWasm, frames, sent, writeBuf);
      EndOfStream(k, isWasm, frames, done, sent, taken, rest);
      assert frames[..done] == frames;
    }
  }

  lemma {:induction false} HasHeader(k: Key, isWasm: bool, n: nat, frames: seq<Octets>)
    ensures frames != [] ==> |Wire(k, isWasm, n, frames)| >= HeaderLen(isWasm)
  {
  }

  /** A wire fully sent and read to less than a header has been read to its end. */
  lemma {:induction false} EndOfStream(k: Key, isWasm: bool, frames: seq<Octets>, done: nat, sent: Octets, taken: nat, rest: Octets)
    requires Aligned(k, isWasm, frames, done, sent, taken, rest) && taken == |sent| && |rest| < HeaderLen(isWasm)
    requires sent == Wire(k, isWasm, 0, frames)
    ensures done == |frames| && rest == []
  {
    RestIsNext(k, isWasm, frames, done, sent, taken, rest);
    HasHeader(k, isWasm, done, frames[done..]);
  }

  /**
   An end of stream before a complete header is reported as an orderly end, whether or not a few bytes
   of a header had arrived.  The stream was cut between frames exactly when none had.
   */
  lemma {:induction false} OrderlyEnd(k: Key, isWasm: bool, frames: seq<Octets>, done: nat, sent: Octets, taken: nat, rest: Octets)
    requires Aligned(k, isWasm, frames, done, sent, taken, rest) && taken == |sent| && |rest| < HeaderLen(isWasm)
    ensures (exists m: nat :: m <= |frames| && sent == Wire(k, isWasm, 0, frames[..m])) <==> rest == []
  {
    assert sent[..taken] == sent;
    if m: nat :| m <= |frames| && sent == Wire(k, isWasm, 0, frames[..m]) {
      CutAt(k, isWasm, frames, done, m, rest);
    }
    if rest == [] {
      assert sent == Wire(k, isWasm, 0, frames[..done]);
    }
  }

  lemma {:induction false} CutAt(k: Key, isWasm: bool, frames: seq<Octets>, done: nat, m: nat, rest: Octets)
    requires done <= |frames| && m <= |frames| && |rest| < HeaderLen(isWasm)
    requires Wire(k, isWasm, 0, frames[..m]) == Wire(k, isWasm, 0, frames[..done]) + rest
    ensures rest == []
  {
    if m <= done {
      assert frames[..done] == frames[..m] + frames[m..done];
      WireSplit(k, isWasm, 0, frames[..m], frames[m..done]);
    } else {
      assert frames[..m] == frames[..done] + frames[done..m];
      WireSplit(k, isWasm, 0, frames[..done], frames[done..m]);
      HasHeader(k, isWasm, done, frames[done..m]);
    }
  }

  datatype Event = Write(buf: Octets) | Flush | Read(cap: nat)

  /** Plaintexts `accepted` are cuts of buffers that the script writes, in its order, some perhaps refused. */
  ghost predicate TakenFrom(script: seq<Event>, accepted: seq<Octets>) {
    if script == [] then accepted == []
    else
      var e, before, m := script[|script| - 1], script[..|script| - 1], |accepted|;
      || TakenFrom(before, accepted)
      || (e.Write? && m > 0 && accepted[m - 1] == Cut(e.buf, MAX_PLAINTEXT) && TakenFrom(before, accepted[..m - 1]))
  }

  lemma {:induction false} TakenMore(script: seq<Event>, i: nat, accepted: seq<Octets>, accepted': seq<Octets>)
    requires i < |script| && TakenFrom(script[..i], accepted)
    requires accepted' == accepted || (script[i].Write? && accepted' == accepted + [Cut(script[i].buf, MAX_PLAINTEXT)])
    ensures TakenFrom(script[..i + 1], accepted')
  {
    assert script[..i + 1][..i] == script[..i];
    if accepted' != accepted { assert accepted'[..|accepted|] == accepted; }
  }

  /** One step on either side, whatever the transport does with it. */
  method Step(a: NoiseStream, b: NoiseStream, e: Event) returns (written: Octets, read: Octets)
    requires Linked(a, b)
    modifies a`writeBuf, a`writeConsumed, a`writeNonce, a`accepted, a.outgoing`sent, a.outgoing`answers
    modifies b`readBuf, b`decryptBuf, b`readNonce, b`delivered, b.incoming`taken, b.incoming`answers
    ensures Linked(a, b)
    ensures Flatten(a.accepted) == old(Flatten(a.accepted)) + written && b.delivered == old(b.delivered) + read
    ensures a.accepted == old(a.accepted) || (e.Write? && a.accepted == old(a.accepted) + [Cut(e.buf, MAX_PLAINTEXT)])
    ensures e.Write? && old(a.writeBuf) == [] ==> a.accepted == old(a.accepted) + [Cut(e.buf, MAX_PLAINTEXT)]
    ensures e.Read? && old(b.decryptBuf) != [] ==> read == Cut(old(b.decryptBuf), e.cap)
    ensures e.Read? && old(b.decryptBuf == [] && b.Complete()) ==> b.readNonce > old(b.readNonce)
    ensures if e.Read? then |read| <= e.cap else read == []
  {
    written, read := [], [];
    match e {
      case Write(buf) =>
        ghost var frames, sent := a.accepted, a.outgoing.sent;
        var r := a.PollWrite(buf);
        if r.Ready? {
          written := buf[..r.value];
          assert written == Cut(buf, MAX_PLAINTEXT);
          FlattenSplit(frames, [written]);
          FlattenOne(written);
        }
        AlignedMore(b.recvKey, b.isWasm, frames, b.readNonce, sent, b.incoming.taken, b.readBuf, a.accepted, a.outgoing.sent);
      case Flush =>
        ghost var sent := a.outgoing.sent;
        var r := a.PollFlush();
        AlignedMore(b.recvKey, b.isWasm, a.accepted, b.readNonce, sent, b.incoming.taken, b.readBuf, a.accepted, a.outgoing.sent);
      case Read(cap) =>
        var r := b.PollRead(cap, a.accepted);
        if r.Data? { read := r.bytes; }
    }
  }

  /**
   Any run of writes, flushes and reads from the start of a session, over any behaviour of the transport:
   what is written is what the sender accepted, frame by frame cut from the script's buffers in order; the bytes
   read are a prefix of it, and all of it once both ends are drained; each nonce counts the frames its side has
   processed.
   */
  method AnyRun(a: NoiseStream, b: NoiseStream, script: seq<Event>) returns (written: Octets, read: Octets)
    requires Linked(a, b) && a.accepted == [] && b.delivered == []
    modifies a`writeBuf, a`writeConsumed, a`writeNonce, a`accepted, a.outgoing`sent, a.outgoing`answers
    modifies b`readBuf, b`decryptBuf, b`readNonce, b`delivered, b.incoming`taken, b.incoming`answers
    ensures Linked(a, b) && a.writeNonce == |a.accepted| && b.readNonce <= a.writeNonce
    ensures TakenFrom(script, a.accepted) && written == Flatten(a.accepted) && read == b.delivered
    ensures read <= written
    ensures a.writeBuf == b.readBuf == b.decryptBuf == [] && b.incoming.taken == |b.incoming.sent| ==>
              read == written && b.readNonce == a.writeNonce
  {
    written, read := [], [];
    for i := 0 to |script|
      invariant Linked(a, b) && Flatten(a.accepted) == written && b.delivered == read
      invariant TakenFrom(script[..i], a.accepted)
    {
      ghost var accepted := a.accepted;
      var w, r := Step(a, b, script[i]);
      TakenMore(script, i, accepted, a.accepted);
      written, read := written + w, read + r;
    }
    assert script[..|script|] == script;
    Fidelity(a.sendKey, a.isWasm, a.accepted, a.outgoing.sent, a.writeBuf, a.writeConsumed,
             b.readNonce, b.incoming.taken, b.readBuf, b.delivered, b.decryptBuf);
  }
}
