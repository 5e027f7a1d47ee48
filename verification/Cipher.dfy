/** Encrypted frames: the cipher of one direction of a Noise session, and how frames lie on the wire. */
module Cipher {
  import opened Basics

  /** Bytes as numbers: this part of the system never looks at single bits. */
  type Octet = n: nat | n < 256
  type Octets = seq<Octet>

  /** Length of the ChaCha20-Poly1305 tag. */
  const TAG_LEN: nat := 16

  /** Section 3 of the Noise Protocol Framework: no message is longer than this. */
  const MAX_FRAME_SIZE: nat := 65535

  const MAX_PLAINTEXT: nat := MAX_FRAME_SIZE - TAG_LEN

  const TWO_32: nat := 0x1_0000_0000

  /** One direction's key: encryption and decryption under a nonce. */
  datatype Key = Key(enc: (nat, Octets) -> Octets, dec: (nat, Octets) -> Option<Octets>)

  /** Decryption undoes encryption under the same nonce, and a ciphertext is a tag longer than its plaintext. */
  ghost predicate Sound(k: Key) {
    forall n, p :: |k.enc(n, p)| == |p| + TAG_LEN && k.dec(n, k.enc(n, p)) == Some(p)
  }

  // ------------------------------------------------------------- integers

  /** `to_be_bytes` of a `u16`, of the low 16 bits of `n`. */
  function Be16(n: nat): (r: Octets)
    ensures |r| == 2
  {
    [n / 256 % 256, n % 256]
  }

  function FromBe16(b: Octets): (n: nat)
    requires |b| == 2
    ensures n <= 0xFFFF
  {
    var high: nat, low: nat := b[0], b[1];
    256 * high + low
  }

  lemma {:induction false} Be16Back(n: nat)
    requires n <= 0xFFFF
    ensures FromBe16(Be16(n)) == n
  {
  }

  // --------------------------------------------------------------- frames

  /** Octets between the length and the ciphertext of a frame. */
  function Padding(isWasm: bool): Octets {
    if isWasm then [0, 0, 0, 0, 0, 0] else []
  }

  function HeaderLen(isWasm: bool): (h: nat)
    ensures h == 2 + |Padding(isWasm)|
  {
    if isWasm then 2 + 6 else 2
  }

  function Frame(isWasm: bool, c: Octets): Octets {
    Be16(|c|) + Padding(isWasm) + c
  }

  /** A frame byte by byte: the ciphertext's length, high byte first, six zeros for a browser, the ciphertext. */
  lemma {:induction false} FrameLayout(isWasm: bool, c: Octets, i: nat)
    requires |c| <= MAX_FRAME_SIZE
    ensures var f, h := Frame(isWasm, c), if isWasm then 8 else 2;
      && |f| == h + |c| && f[0] == |c| / 256 && f[1] == |c| % 256
      && (2 <= i < h ==> f[i] == 0) && (i < |c| ==> f[h + i] == c[i])
  {
    assert |c| / 256 < 256;
  }

  /** The wire bytes of a list of plaintexts, the first under nonce `n`. */
  function Wire(k: Key, isWasm: bool, n: nat, frames: seq<Octets>): Octets
    decreases |frames|
  {
    if frames == [] then []
    else Frame(isWasm, k.enc(n, frames[0])) + Wire(k, isWasm, n + 1, frames[1..])
  }

  function Flatten(frames: seq<Octets>): Octets {
    if frames == [] then [] else frames[0] + Flatten(frames[1..])
  }

  ghost predicate Fit(frames: seq<Octets>) {
    forall f | f in frames :: |f| <= MAX_PLAINTEXT
  }

  lemma {:induction false} WireSplit(k: Key, isWasm: bool, n: nat, a: seq<Octets>, b: seq<Octets>)
    ensures Wire(k, isWasm, n, a + b) == Wire(k, isWasm, n, a) + Wire(k, isWasm, n + |a|, b)
    decreases |a|
  {
    if a == [] {
      assert a + b == b;
    } else {
      WireSplit(k, isWasm, n + 1, a[1..], b);
      assert (a + b)[1..] == a[1..] + b;
      Associative(Frame(isWasm, k.enc(n, a[0])), Wire(k, isWasm, n + 1, a[1..]), Wire(k, isWasm, n + |a|, b));
    }
  }

  lemma {:induction false} WireOne(k: Key, isWasm: bool, n: nat, f: Octets)
    ensures Wire(k, isWasm, n, [f]) == Frame(isWasm, k.enc(n, f))
  {
    assert [f][1..] == [];
  }

  lemma {:induction false} FlattenSplit(a: seq<Octets>, b: seq<Octets>)
    ensures Flatten(a + b) == Flatten(a) + Flatten(b)
  {
    if a == [] {
      assert a + b == b;
    } else {
      FlattenSplit(a[1..], b);
      assert (a + b)[1..] == a[1..] + b;
      Associative(a[0], Flatten(a[1..]), Flatten(b));
    }
  }

  lemma {:induction false} FlattenOne(f: Octets)
    ensures Flatten([f]) == f
  {
    assert [f][1..] == [];
  }

  /** `slice::chunks` of the longest plaintext a frame can carry. */
  function Chunks(s: Octets): seq<Octets>
    decreases |s|
  {
    if s == [] then []
    else if |s| <= MAX_PLAINTEXT then [s]
    else [s[..MAX_PLAINTEXT]] + Chunks(s[MAX_PLAINTEXT..])
  }

  ghost predicate Frameable(chunks: seq<Octets>) {
    forall c | c in chunks :: 0 < |c| <= MAX_PLAINTEXT
  }

  lemma {:induction false} ChunksFrameable(s: Octets)
    ensures Flatten(Chunks(s)) == s && Frameable(Chunks(s))
    decreases |s|
  {
    if s == [] {
    } else if |s| <= MAX_PLAINTEXT {
      FlattenOne(s);
    } else {
      ChunksFrameable(s[MAX_PLAINTEXT..]);
      FlattenSplit([s[..MAX_PLAINTEXT]], Chunks(s[MAX_PLAINTEXT..]));
      FlattenOne(s[..MAX_PLAINTEXT]);
      assert s == s[..MAX_PLAINTEXT] + s[MAX_PLAINTEXT..];
    }
  }

  /** Every chunk but the last is as long as one can be. */
  lemma {:induction false} ChunksFull(s: Octets, i: nat)
    requires i < |Chunks(s)|
    ensures i < |Chunks(s)| - 1 ==> |Chunks(s)[i]| == 65519
    ensures |Chunks(s)| == (|s| + 65518) / 65519
    decreases |s|
  {
    if |s| > MAX_PLAINTEXT {
      ChunksFull(s[MAX_PLAINTEXT..], if i == 0 then 0 else i - 1);
    }
  }
}
