/**
 The encrypted backup stream: a header, then chunks sealed by an AEAD. The writer keeps a
 chunk that is full in its buffer until another byte follows; the reader looks for the end
 of its input to decide which chunk is the last.
 */
module BackupCrypt {
  import opened Wrappers
  import opened BigEndian

  const MAGIC: Bytes := [84, 80, 66, 75, 69, 78, 67]  // TPBKENC
  const VERSION: Byte := 1
  const CHUNK := 65536
  const TAG := 16
  const SALT := 16
  const NONCE := 12
  const HEADER := 45
  const MAX_KDF_TIME := 10
  const MAX_KDF_MEMORY := 1048576
  const UINT32 := 0x1_0000_0000
  const UINT64 := 0x1_0000_0000_0000_0000

  // ---------------------------------------------------------------- nonces

  function Pow2(w: nat): nat {
    if w == 0 then 1 else 2 * Pow2(w - 1)
  }

  /** Exclusive or of the low `w` bits. */
  function XorBits(a: nat, b: nat, w: nat): (x: nat)
    ensures x < Pow2(w)
  {
    if w == 0 then 0 else 2 * XorBits(a / 2, b / 2, w - 1) + if a % 2 == b % 2 then 0 else 1
  }

  lemma {:induction false} XorCancels(a: nat, b: nat, c: nat, w: nat)
    requires b < Pow2(w) && c < Pow2(w)
    ensures XorBits(a, b, w) == XorBits(a, c, w) <==> b == c
  {
    if w > 0 {
      XorCancels(a / 2, b / 2, c / 2, w - 1);
    }
  }

  function Xor(a: Byte, b: Byte): Byte {
    assert Pow2(8) == 256 by { assert Pow2(4) == 16; }
    XorBits(a as nat, b as nat, 8) as Byte
  }

  /** The base nonce with the chunk counter, a uint64 that wraps, folded into its last eight bytes. */
  function ChunkNonce(base: Bytes, n: nat): (nonce: Bytes)
    requires |base| == NONCE
    ensures |nonce| == NONCE
  {
    base[..NONCE - 8] + seq(8, i requires 0 <= i < 8 => Xor(base[NONCE - 8 + i], Encode(n, 8)[i]))
  }

  /** Two chunks share a nonce exactly when their counters agree as uint64s. */
  lemma NonceInjective(base: Bytes, a: nat, b: nat)
    requires |base| == NONCE
    ensures ChunkNonce(base, a) == ChunkNonce(base, b) <==> a % UINT64 == b % UINT64
  {
    EncodeInjective(a, b, 8);
    assert Pow256(8) == UINT64 by {
      assert Pow256(4) == UINT32;
      assert Pow256(6) == 65536 * UINT32;
    }
    var x, y := ChunkNonce(base, a), ChunkNonce(base, b);
    if x == y {
      forall i | 0 <= i < 8
        ensures Encode(a, 8)[i] == Encode(b, 8)[i]
      {
        assert x[NONCE - 8 + i] == y[NONCE - 8 + i];
        assert Pow2(8) == 256 by { assert Pow2(4) == 16; }
        XorCancels(base[NONCE - 8 + i] as nat, Encode(a, 8)[i] as nat, Encode(b, 8)[i] as nat, 8);
      }
    }
  }

  /** A stream's nonces are pairwise distinct exactly while its chunks fit the counter. */
  lemma NoncesDistinct(base: Bytes, chunks: nat)
    requires |base| == NONCE
    ensures (forall i, j | 0 <= i < j < chunks :: ChunkNonce(base, i) != ChunkNonce(base, j)) <==> chunks <= UINT64
  {
    forall i, j | 0 <= i < j < chunks
      ensures chunks <= UINT64 ==> ChunkNonce(base, i) != ChunkNonce(base, j)
    {
      NonceInjective(base, i, j);
    }
    if chunks > UINT64 {
      NonceInjective(base, 0, UINT64);
      assert ChunkNonce(base, 0) == ChunkNonce(base, UINT64);
    }
  }

  method ComputeNonce(base: Bytes, n: nat) returns (nonce: Bytes)
    requires |base| == NONCE
    ensures nonce == ChunkNonce(base, n)
  {
    nonce := base;
    var ctr := Encode(n, 8);
    for i := 0 to 8
      invariant |nonce| == NONCE
      invariant nonce[..NONCE - 8 + i] == ChunkNonce(base, n)[..NONCE - 8 + i]
      invariant nonce[NONCE - 8 + i..] == base[NONCE - 8 + i..]
    {
      ghost var at := NONCE - 8 + i;
      assert nonce[at] == nonce[at..][0] == base[at];
      var flipped := Xor(nonce[NONCE - 8 + i], ctr[i]);
      nonce := nonce[..NONCE - 8 + i] + [flipped] + nonce[NONCE - 8 + i + 1..];
      assert base[at..][1..] == base[at + 1..];
    }
    assert nonce == nonce[..NONCE];
  }

  // ---------------------------------------------------------------- the AEAD and one stream's use of it

  /** Seal and Open take a nonce, a text and additional data. */
  datatype Aead = Aead(seal: (Bytes, Bytes, Bytes) -> Bytes, open: (Bytes, Bytes, Bytes) -> Option<Bytes>)

  datatype Session = Session(aead: Aead, header: Bytes, base: Bytes)

  function ChunkAAD(header: Bytes, last: bool): Bytes {
    header + [if last then 1 else 0]
  }

  function SealChunk(s: Session, plain: Bytes, k: nat, last: bool): Bytes
    requires |s.base| == NONCE
  {
    s.aead.seal(ChunkNonce(s.base, k), plain, ChunkAAD(s.header, last))
  }

  function OpenChunk(s: Session, sealed: Bytes, k: nat, last: bool): Option<Bytes>
    requires |s.base| == NONCE
  {
    s.aead.open(ChunkNonce(s.base, k), sealed, ChunkAAD(s.header, last))
  }

  /** What a stream is, with no writer in sight: full chunks and then one, full or not, flagged last. */
  function Sealed(s: Session, plain: Bytes, k: nat): Bytes
    requires |s.base| == NONCE
    decreases |plain|
  {
    if |plain| <= CHUNK then SealChunk(s, plain, k, true)
    else SealChunk(s, plain[..CHUNK], k, false) + Sealed(s, plain[CHUNK..], k + 1)
  }

  /** The AEAD a cipher should be on every input: tags are 16 bytes and Open undoes Seal. */
  ghost predicate Correct(a: Aead) {
    forall n, p, d :: |a.seal(n, p, d)| == |p| + TAG && a.open(n, a.seal(n, p, d), d) == Some(p)
  }

  // ---------------------------------------------------------------- the writer

  /** The part of `plain` already sealed, the part still buffered, and the number of sealed chunks. */
  function Emitted(s: Session, plain: Bytes, k: nat): Bytes
    requires |s.base| == NONCE
    decreases |plain|
  {
    if |plain| <= CHUNK then [] else SealChunk(s, plain[..CHUNK], k, false) + Emitted(s, plain[CHUNK..], k + 1)
  }

  function Pending(plain: Bytes): (rest: Bytes)
    ensures |rest| <= CHUNK
    decreases |plain|
  {
    if |plain| <= CHUNK then plain else Pending(plain[CHUNK..])
  }

  function Flushed(plain: Bytes): nat
    decreases |plain|
  {
    if |plain| <= CHUNK then 0 else 1 + Flushed(plain[CHUNK..])
  }

  lemma {:induction false} FlushLast(s: Session, plain: Bytes, k: nat)
    requires |s.base| == NONCE
    ensures Sealed(s, plain, k) == Emitted(s, plain, k) + SealChunk(s, Pending(plain), k + Flushed(plain), true)
    decreases |plain|
  {
    if |plain| > CHUNK {
      FlushLast(s, plain[CHUNK..], k + 1);
    }
  }

  lemma {:induction false} Buffer(s: Session, plain: Bytes, t: Bytes, k: nat)
    requires |s.base| == NONCE
    requires |Pending(plain)| + |t| <= CHUNK
    ensures Pending(plain + t) == Pending(plain) + t
    ensures Emitted(s, plain + t, k) == Emitted(s, plain, k) && Flushed(plain + t) == Flushed(plain)
    decreases |plain|
  {
    if |plain| > CHUNK {
      Buffer(s, plain[CHUNK..], t, k + 1);
      assert (plain + t)[CHUNK..] == plain[CHUNK..] + t;
      assert (plain + t)[..CHUNK] == plain[..CHUNK];
    }
  }

  lemma {:induction false} Overflow(s: Session, plain: Bytes, t: Bytes, k: nat)
    requires |s.base| == NONCE
    requires |Pending(plain)| == CHUNK && 0 < |t| <= CHUNK
    ensures Pending(plain + t) == t && Flushed(plain + t) == Flushed(plain) + 1
    ensures Emitted(s, plain + t, k) == Emitted(s, plain, k) + SealChunk(s, Pending(plain), k + Flushed(plain), false)
    decreases |plain|
  {
    assert (plain + t)[CHUNK..] == plain[CHUNK..] + t;
    assert (plain + t)[..CHUNK] == plain[..CHUNK];
    if |plain| > CHUNK {
      Overflow(s, plain[CHUNK..], t, k + 1);
    } else {
      assert plain[CHUNK..] == [] && plain[..CHUNK] == plain;
      assert [] + t == t;
      assert Emitted(s, plain + t, k) == SealChunk(s, plain, k, false) + Emitted(s, t, k + 1);
    }
  }

  /** Adding t, which fills the buffer at most once: a full buffer goes out first. */
  lemma Add(s: Session, plain: Bytes, t: Bytes)
    requires |s.base| == NONCE && 0 < |t|
    requires |t| <= CHUNK - if |Pending(plain)| == CHUNK then 0 else |Pending(plain)|
    ensures Pending(plain + t) == if |Pending(plain)| == CHUNK then t else Pending(plain) + t
    ensures Flushed(plain + t) == Flushed(plain) + if |Pending(plain)| == CHUNK then 1 else 0
    ensures Emitted(s, plain + t, 0) == Emitted(s, plain, 0) +
            if |Pending(plain)| == CHUNK then SealChunk(s, Pending(plain), Flushed(plain), false) else []
  {
    if |Pending(plain)| == CHUNK {
      Overflow(s, plain, t, 0);
    } else {
      Buffer(s, plain, t, 0);
    }
  }

  lemma {:induction false} FlushedGrows(plain: Bytes, t: Bytes)
    requires |t| > 0
    ensures Flushed(plain + t) >= Flushed(plain) + if |Pending(plain)| == CHUNK then 1 else 0
    decreases |plain|
  {
    if |plain| > CHUNK {
      FlushedGrows(plain[CHUNK..], t);
      assert (plain + t)[CHUNK..] == plain[CHUNK..] + t;
    }
  }

  lemma TakeRest(before: Bytes, rest: Bytes, take: nat)
    requires take <= |rest|
    ensures before + rest[..take] + rest[take..] == before + rest
  {
    assert rest == rest[..take] + rest[take..];
  }

  class EncryptWriter {
    const s: Session
    /** Which chunk's write to the underlying writer fails. */
    const fails: nat -> bool
    var count: nat
    var buf: Bytes
    var out: Bytes
    ghost var written: Bytes

    /** Nothing in the state depends on how `written` was split over calls. */
    ghost predicate Valid()
      reads this
    {
      && |s.base| == NONCE
      && out == s.header + Emitted(s, written, 0)
      && buf == Pending(written)
      && count == Flushed(written)
    }

    constructor (s: Session, fails: nat -> bool)
      requires |s.base| == NONCE
      ensures Valid() && this.s == s && this.fails == fails && written == []
    {
      this.s, this.fails := s, fails;
      count, buf, out := 0, [], s.header;
      written := [];
    }

    method Seal(last: bool) returns (ok: bool)
      requires |s.base| == NONCE
      modifies this
      ensures count == old(count) + 1 && buf == [] && written == old(written)
      ensures ok <==> !fails(old(count))
      ensures out == if ok then old(out) + SealChunk(s, old(buf), old(count), last) else old(out)
    {
      var nonce := ComputeNonce(s.base, count);
      var sealed := s.aead.seal(nonce, buf, ChunkAAD(s.header, last));
      ok := !fails(count);
      if ok {
        out := out + sealed;
      }
      count := count + 1;
      buf := [];
    }

    method Write(p: Bytes) returns (n: nat, ok: bool)
      requires Valid()
      modifies this
      ensures ok <==> forall k | old(count) <= k < Flushed(old(written) + p) :: !fails(k)
      ensures ok ==> Valid() && written == old(written) + p && n == |p|
      ensures !ok ==> n == 0
    {
      var rest := p;
      while |rest| > 0
        invariant Valid() && written + rest == old(written) + p
        invariant old(count) <= count
        invariant forall k | old(count) <= k < count :: !fails(k)
        decreases |rest|
      {
        if |buf| == CHUNK && fails(count) {
          FlushedGrows(written, rest);
        }
        var take := Step(rest);
        if take == 0 {
          return 0, false;
        }
        rest := rest[take..];
      }
      assert written + rest == written;
      return |p|, true;
    }

    /** One turn of Write's loop: how much of `rest` the buffer took, 0 when a full chunk could not be written. */
    method Step(rest: Bytes) returns (take: nat)
      requires Valid() && |rest| > 0
      modifies this
      ensures take == 0 <==> |old(buf)| == CHUNK && fails(old(count))
      ensures take > 0 ==> Valid() && take <= |rest| && written == old(written) + rest[..take]
      ensures take > 0 ==> written + rest[take..] == old(written) + rest
      ensures take > 0 ==> count == old(count) + if |old(buf)| == CHUNK then 1 else 0
    {
      ghost var before := written;
      if |buf| == CHUNK {
        var ok := Seal(false);
        if !ok {
          return 0;
        }
      }
      take := if CHUNK - |buf| < |rest| then CHUNK - |buf| else |rest|;
      Add(s, before, rest[..take]);
      buf := buf + rest[..take];
      written := written + rest[..take];
      TakeRest(before, rest, take);
    }

    method Close() returns (ok: bool)
      requires Valid()
      modifies this
      ensures ok <==> !fails(old(count))
      ensures ok ==> out == s.header + Sealed(s, old(written), 0)
    {
      FlushLast(s, written, 0);
      ok := Seal(true);
    }
  }

  // ---------------------------------------------------------------- the reader

  datatype ReadError = EndOfFile | WrongPassphrase | InputFailed

  /** How the underlying input behaves once its bytes are used up. */
  datatype Tail = AtEof | Broken

  /** Every byte a reader hands out before its first error, and that error. */
  datatype Delivery = Delivery(data: Bytes, error: ReadError)

  /** What any reader of `src` delivers, with no buffers in sight. */
  function Opened(s: Session, src: Bytes, tail: Tail, k: nat): Delivery
    requires |s.base| == NONCE
    decreases |src|
  {
    var size := CHUNK + TAG;
    if |src| < size && tail.Broken? then Delivery([], InputFailed)
    else
      var last := |src| < size || (|src| == size && tail.AtEof?);
      var chunk := if last then src else src[..size];
      match OpenChunk(s, chunk, k, last)
      case None => Delivery([], WrongPassphrase)
      case Some(plain) =>
        if last then Delivery(plain, EndOfFile)
        else
          var rest := Opened(s, src[size..], tail, k + 1);
          Delivery(plain + rest.data, rest.error)
  }

  class DecryptReader {
    const s: Session
    const src: Bytes
    const tail: Tail
    var pos: nat
    var count: nat
    var plain: Bytes
    var done: bool

    ghost predicate Valid()
      reads this
    {
      |s.base| == NONCE && pos <= |src|
    }

    /** What is still to come. */
    ghost function Rest(): Delivery
      reads this
      requires Valid()
    {
      if done then Delivery(plain, EndOfFile)
      else
        var later := Opened(s, src[pos..], tail, count);
        Delivery(plain + later.data, later.error)
    }

    constructor (s: Session, src: Bytes, tail: Tail)
      requires |s.base| == NONCE
      ensures Valid() && this.s == s && this.src == src && this.tail == tail
      ensures Rest() == Opened(s, src, tail, 0)
    {
      this.s, this.src, this.tail := s, src, tail;
      pos, count, plain, done := 0, 0, [], false;
      new;
      assert src[0..] == src;
    }

    method Open() returns (error: Option<ReadError>)
      requires Valid() && !done && plain == []
      modifies this
      ensures Valid()
      ensures error.None? ==> Rest() == old(Rest()) && (done || pos > old(pos))
      ensures error.Some? ==> old(Rest()) == Delivery([], error.value)
    {
      ghost var later := Opened(s, src[pos..], tail, count);
      assert [] + later.data == later.data;
      var size := CHUNK + TAG;
      var left := |src| - pos;
      var chunk: Bytes;
      if left < size {
        chunk, pos := src[pos..], |src|;
        if tail.Broken? {
          return Some(InputFailed);
        }
        done := true;
      } else {
        chunk, pos := src[pos..pos + size], pos + size;
        if pos == |src| && tail.AtEof? {
          done := true;
        }
      }
      assert done ==> chunk == src[old(pos)..];
      assert !done ==> chunk == src[old(pos)..][..size] && src[old(pos)..][size..] == src[pos..];
      var nonce := ComputeNonce(s.base, count);
      match s.aead.open(nonce, chunk, ChunkAAD(s.header, done))
      case None =>
        return Some(WrongPassphrase);
      case Some(text) =>
        count := count + 1;
        plain := text;
        return None;
    }

    method Read(size: nat) returns (data: Bytes, error: Option<ReadError>)
      requires Valid()
      modifies this
      ensures Valid()
      ensures error.None? ==> old(Rest()) == Delivery(data + Rest().data, Rest().error)
      ensures error.None? ==> |data| <= size && (size > 0 ==> |data| > 0)
      ensures error.Some? ==> data == [] && old(Rest()) == Delivery([], error.value)
    {
      while |plain| == 0
        invariant Valid() && Rest() == old(Rest())
        decreases !done, |src| - pos
      {
        if done {
          return [], Some(EndOfFile);
        }
        error := Open();
        if error.Some? {
          return [], error;
        }
      }
      var n := if size < |plain| then size else |plain|;
      data := plain[..n];
      ghost var later := Opened(s, src[pos..], tail, count);
      assert plain == plain[..n] + plain[n..];
      assert plain[..n] + (plain[n..] + later.data) == plain + later.data;
      plain := plain[n..];
      error := None;
    }
  }

  /** Reading on with any positive buffer sizes until the first error gives exactly the delivery. */
  method ReadAll(r: DecryptReader, sizes: nat -> nat) returns (got: Delivery)
    requires r.Valid() && forall i :: sizes(i) > 0
    modifies r
    ensures got == old(r.Rest())
  {
    var data, i := [], 0;
    while true
      invariant r.Valid()
      invariant old(r.Rest()) == Delivery(data + r.Rest().data, r.Rest().error)
      decreases |r.Rest().data|
    {
      var part, error := r.Read(sizes(i));
      if error.Some? {
        assert data + [] == data;
        return Delivery(data, error.value);
      }
      ghost var rest := r.Rest().data;
      assert data + (part + rest) == data + part + rest;
      data, i := data + part, i + 1;
    }
  }

  // ---------------------------------------------------------------- round trip

  lemma {:induction false} SealedLength(s: Session, plain: Bytes, k: nat)
    requires |s.base| == NONCE && Correct(s.aead)
    ensures |Sealed(s, plain, k)| >= TAG
  {
    if |plain| <= CHUNK {
      assert |SealChunk(s, plain, k, true)| == |plain| + TAG;
    } else {
      assert |SealChunk(s, plain[..CHUNK], k, false)| == CHUNK + TAG;
    }
  }

  /** Chunks are full but for the last, which holds the rest; there is one even when there is nothing to seal. */
  lemma {:induction false} SealedSize(s: Session, plain: Bytes, k: nat)
    requires |s.base| == NONCE && Correct(s.aead)
    ensures |Sealed(s, plain, k)| == |plain| + TAG * ChunkCount(plain)
    ensures |plain| <= CHUNK * ChunkCount(plain)
    ensures if plain == [] then ChunkCount(plain) == 1 else CHUNK * (ChunkCount(plain) - 1) < |plain|
    decreases |plain|
  {
    if |plain| <= CHUNK {
      assert |SealChunk(s, plain, k, true)| == |plain| + TAG;
    } else {
      assert |SealChunk(s, plain[..CHUNK], k, false)| == CHUNK + TAG;
      SealedSize(s, plain[CHUNK..], k + 1);
    }
  }

  /** Every plaintext comes back, empty and exact multiples of a chunk included. */
  lemma {:induction false} RoundTrip(s: Session, plain: Bytes, k: nat)
    requires |s.base| == NONCE && Correct(s.aead)
    ensures Opened(s, Sealed(s, plain, k), AtEof, k) == Delivery(plain, EndOfFile)
    decreases |plain|
  {
    var all := Sealed(s, plain, k);
    if |plain| <= CHUNK {
      assert |all| == |plain| + TAG;
      assert OpenChunk(s, all, k, true) == Some(plain);
    } else {
      var first, later := SealChunk(s, plain[..CHUNK], k, false), Sealed(s, plain[CHUNK..], k + 1);
      SealedLength(s, plain[CHUNK..], k + 1);
      assert |first| == CHUNK + TAG;
      assert all[..CHUNK + TAG] == first && all[CHUNK + TAG..] == later;
      assert OpenChunk(s, first, k, false) == Some(plain[..CHUNK]);
      RoundTrip(s, plain[CHUNK..], k + 1);
      assert plain[..CHUNK] + plain[CHUNK..] == plain;
    }
  }

  function Join(parts: seq<Bytes>): Bytes {
    if parts == [] then [] else Join(parts[..|parts| - 1]) + parts[|parts| - 1]
  }

  /** Write in any pieces, close, read in any pieces: the same bytes. */
  method BackUpAndRestore(s: Session, parts: seq<Bytes>, sizes: nat -> nat) returns (file: Bytes, got: Delivery)
    requires |s.base| == NONCE && Correct(s.aead)
    requires forall i :: sizes(i) > 0
    ensures file == s.header + Sealed(s, Join(parts), 0)
    ensures got == Delivery(Join(parts), EndOfFile)
  {
    var w := new EncryptWriter(s, _ => false);
    for i := 0 to |parts|
      invariant w.Valid() && w.s == s && w.fails == (_ => false)
      invariant fresh(w) && w.written == Join(parts[..i])
    {
      var _, _ := w.Write(parts[i]);
      assert parts[..i + 1][..i] == parts[..i];
    }
    assert parts[..|parts|] == parts;
    var _ := w.Close();
    file := w.out;
    var r := new DecryptReader(s, file[|s.header|..], AtEof);
    got := ReadAll(r, sizes);
    RoundTrip(s, Join(parts), 0);
  }

  // ---------------------------------------------------------------- tampering

  /** How many chunks a plaintext takes, and the text of each. */
  function ChunkCount(plain: Bytes): nat {
    Flushed(plain) + 1
  }

  function ChunkText(plain: Bytes, i: nat): Bytes
    requires i < ChunkCount(plain)
    decreases |plain|
  {
    if |plain| <= CHUNK then plain
    else if i == 0 then plain[..CHUNK]
    else ChunkText(plain[CHUNK..], i - 1)
  }

  /** Chunk i of the stream that was sealed from `plain`. */
  function StreamChunk(s: Session, plain: Bytes, i: nat): Bytes
    requires |s.base| == NONCE && i < ChunkCount(plain)
  {
    SealChunk(s, ChunkText(plain, i), i, i == Flushed(plain))
  }

  /** The ideal AEAD after this one stream: Open undoes its seals and accepts nothing else. */
  ghost predicate Ideal(s: Session, plain: Bytes) {
    && |s.base| == NONCE
    && (forall i | 0 <= i < ChunkCount(plain) ::
          && |StreamChunk(s, plain, i)| == |ChunkText(plain, i)| + TAG
          && OpenChunk(s, StreamChunk(s, plain, i), i, i == Flushed(plain)) == Some(ChunkText(plain, i)))
    && (forall nonce, sealed, aad :: s.aead.open(nonce, sealed, aad).Some? ==>
          exists i | 0 <= i < ChunkCount(plain) ::
            && nonce == ChunkNonce(s.base, i)
            && sealed == StreamChunk(s, plain, i)
            && aad == ChunkAAD(s.header, i == Flushed(plain)))
  }

  const PAD: Bytes := [0, 0, 0, 0, 0, 0, 0, 0, 0, 0, 0, 0, 0, 0, 0, 0]

  ghost predicate Padded(header: Bytes, base: Bytes, plain: Bytes, i: nat, nonce: Bytes, sealed: Bytes, aad: Bytes)
    requires |base| == NONCE
  {
    && i < ChunkCount(plain)
    && nonce == ChunkNonce(base, i)
    && sealed == ChunkText(plain, i) + PAD
    && aad == ChunkAAD(header, i == Flushed(plain))
  }

  ghost function PaddedOpen(
    header: Bytes, base: Bytes, plain: Bytes, nonce: Bytes, sealed: Bytes, aad: Bytes): Option<Bytes>
    requires |base| == NONCE
  {
    if exists i :: Padded(header, base, plain, i, nonce, sealed, aad) then Some(sealed[..|sealed| - TAG]) else None
  }

  /** The ideal is not empty: text and padding, looked up in the stream, is one such AEAD. */
  lemma IdealExists(header: Bytes, base: Bytes, plain: Bytes) returns (s: Session)
    requires |base| == NONCE
    ensures s.header == header && s.base == base && Ideal(s, plain)
  {
    var open := (nonce, sealed, aad) => PaddedOpen(header, base, plain, nonce, sealed, aad);
    s := Session(Aead((_, text, _) => text + PAD, open), header, base);
    forall i | 0 <= i < ChunkCount(plain)
      ensures StreamChunk(s, plain, i) == ChunkText(plain, i) + PAD
      ensures OpenChunk(s, StreamChunk(s, plain, i), i, i == Flushed(plain)) == Some(ChunkText(plain, i))
    {
      var sealed := StreamChunk(s, plain, i);
      assert Padded(header, base, plain, i, ChunkNonce(base, i), sealed, ChunkAAD(header, i == Flushed(plain)));
      assert sealed[..|sealed| - TAG] == ChunkText(plain, i);
    }
    forall nonce, sealed, aad | s.aead.open(nonce, sealed, aad).Some?
      ensures exists i | 0 <= i < ChunkCount(plain) ::
                && nonce == ChunkNonce(s.base, i)
                && sealed == StreamChunk(s, plain, i)
                && aad == ChunkAAD(s.header, i == Flushed(plain))
    {
      var i :| Padded(header, base, plain, i, nonce, sealed, aad);
      assert sealed == StreamChunk(s, plain, i);
    }
  }

  /** An accepted chunk is the right one for its place, with the right last flag. */
  lemma OnlyItsPlace(s: Session, plain: Bytes, k: nat, sealed: Bytes, last: bool)
    requires Ideal(s, plain) && ChunkCount(plain) <= UINT64 && k < ChunkCount(plain)
    ensures OpenChunk(s, sealed, k, last) ==
            if sealed == StreamChunk(s, plain, k) && last == (k == Flushed(plain)) then Some(ChunkText(plain, k))
            else None
  {
    if OpenChunk(s, sealed, k, last).Some? {
      var i := Accepted(s, plain, ChunkNonce(s.base, k), sealed, ChunkAAD(s.header, last));
      NonceInjective(s.base, k, i);
      SameData(s.header, last, s.header, i == Flushed(plain));
    }
  }

  lemma Accepted(s: Session, plain: Bytes, nonce: Bytes, sealed: Bytes, aad: Bytes) returns (i: nat)
    requires Ideal(s, plain) && s.aead.open(nonce, sealed, aad).Some?
    ensures i < ChunkCount(plain) && nonce == ChunkNonce(s.base, i)
    ensures sealed == StreamChunk(s, plain, i) && aad == ChunkAAD(s.header, i == Flushed(plain))
  {
    i :| 0 <= i < ChunkCount(plain)
      && nonce == ChunkNonce(s.base, i)
      && sealed == StreamChunk(s, plain, i)
      && aad == ChunkAAD(s.header, i == Flushed(plain));
  }

  lemma SameData(h1: Bytes, a: bool, h2: Bytes, b: bool)
    requires |h1| == |h2|
    ensures ChunkAAD(h1, a) == ChunkAAD(h2, b) <==> h1 == h2 && a == b
  {
    assert ChunkAAD(h1, a)[|h1|] == if a then 1 else 0;
    assert ChunkAAD(h2, b)[|h2|] == if b then 1 else 0;
    assert ChunkAAD(h1, a)[..|h1|] == h1 && ChunkAAD(h2, b)[..|h2|] == h2;
  }

  lemma {:induction false} ChunkTextAt(plain: Bytes, i: nat)
    requires i < ChunkCount(plain)
    ensures i * CHUNK <= |plain|
    ensures i < Flushed(plain) <==> |plain| - i * CHUNK > CHUNK
    ensures ChunkText(plain, i) == if i == Flushed(plain) then plain[i * CHUNK..] else plain[i * CHUNK..(i + 1) * CHUNK]
    decreases |plain|
  {
    if |plain| > CHUNK && i > 0 {
      ChunkTextAt(plain[CHUNK..], i - 1);
      assert plain[CHUNK..][(i - 1) * CHUNK..] == plain[i * CHUNK..];
      if i < Flushed(plain) {
        assert plain[CHUNK..][(i - 1) * CHUNK..i * CHUNK] == plain[i * CHUNK..(i + 1) * CHUNK];
      }
    }
  }

  /** What is sealed from chunk k on, and that it never stops right at a chunk's edge. */
  lemma StreamFrom(s: Session, plain: Bytes, k: nat) returns (rest: Bytes, mine: Bytes)
    requires Ideal(s, plain) && k < ChunkCount(plain)
    ensures k * CHUNK <= |plain| && rest == plain[k * CHUNK..] && mine == StreamChunk(s, plain, k)
    ensures TAG <= |mine| <= CHUNK + TAG
    ensures k == Flushed(plain) ==> ChunkText(plain, k) == rest && Sealed(s, rest, k) == mine
    ensures k < Flushed(plain) ==>
      && |mine| == CHUNK + TAG && |rest| > CHUNK && ChunkText(plain, k) == rest[..CHUNK]
      && (k + 1) * CHUNK <= |plain| && rest[CHUNK..] == plain[(k + 1) * CHUNK..]
      && Sealed(s, rest, k) == mine + Sealed(s, plain[(k + 1) * CHUNK..], k + 1)
  {
    ChunkTextAt(plain, k);
    rest, mine := plain[k * CHUNK..], StreamChunk(s, plain, k);
    assert |mine| == |ChunkText(plain, k)| + TAG;
    if k < Flushed(plain) {
      assert rest[..CHUNK] == plain[k * CHUNK..(k + 1) * CHUNK];
      assert rest[CHUNK..] == plain[(k + 1) * CHUNK..];
    }
  }

  /** The reader cuts an untouched stream where the writer did, and knows the last chunk. */
  lemma Untouched(s: Session, plain: Bytes, k: nat, src: Bytes)
    requires Ideal(s, plain) && k < ChunkCount(plain) && k * CHUNK <= |plain|
    requires src == Sealed(s, plain[k * CHUNK..], k)
    ensures |src| <= CHUNK + TAG <==> k == Flushed(plain)
    ensures k == Flushed(plain) ==> src == StreamChunk(s, plain, k)
    ensures k < Flushed(plain) ==>
      && (k + 1) * CHUNK <= |plain|
      && src[..CHUNK + TAG] == StreamChunk(s, plain, k)
      && src[CHUNK + TAG..] == Sealed(s, plain[(k + 1) * CHUNK..], k + 1)
  {
    var _, mine := StreamFrom(s, plain, k);
    if k < Flushed(plain) {
      var rest, next := StreamFrom(s, plain, k + 1);
      assert |Sealed(s, rest, k + 1)| > 0;
      assert src == mine + Sealed(s, rest, k + 1);
    }
  }

  /**
   Whatever was cut, reordered, repeated or appended, a reader delivers a prefix of the
   plaintext; it reports a clean end exactly on the untouched stream.
   */
  lemma {:induction false} Tampering(s: Session, plain: Bytes, src: Bytes, tail: Tail, k: nat)
    requires Ideal(s, plain) && ChunkCount(plain) <= UINT64 && k < ChunkCount(plain)
    requires k * CHUNK <= |plain|
    ensures Opened(s, src, tail, k).data <= plain[k * CHUNK..]
    ensures Opened(s, src, tail, k).error.EndOfFile? <==> tail.AtEof? && src == Sealed(s, plain[k * CHUNK..], k)
    ensures Opened(s, src, tail, k).error.EndOfFile? ==> Opened(s, src, tail, k).data == plain[k * CHUNK..]
    decreases |src|
  {
    var size := CHUNK + TAG;
    if tail.AtEof? && src == Sealed(s, plain[k * CHUNK..], k) {
      Untouched(s, plain, k, src);
    }
    if |src| >= size || tail.AtEof? {
      var last := |src| < size || (|src| == size && tail.AtEof?);
      var chunk := if last then src else src[..size];
      OnlyItsPlace(s, plain, k, chunk, last);
      var rest, mine := StreamFrom(s, plain, k);
      if chunk == mine && !last && k < Flushed(plain) {
        Tampering(s, plain, src[size..], tail, k + 1);
        assert rest == rest[..CHUNK] + rest[CHUNK..];
        assert src == mine + src[size..];
      }
    }
  }

  lemma TamperProof(s: Session, plain: Bytes, src: Bytes, tail: Tail)
    requires Ideal(s, plain) && ChunkCount(plain) <= UINT64
    ensures Opened(s, src, tail, 0).data <= plain
    ensures Opened(s, src, tail, 0).error.EndOfFile? <==> tail.AtEof? && src == Sealed(s, plain, 0)
    ensures Opened(s, src, tail, 0).error.EndOfFile? ==> Opened(s, src, tail, 0).data == plain
  {
    Tampering(s, plain, src, tail, 0);
    assert plain[0 * CHUNK..] == plain;
  }

  /** The header is part of every chunk's data: a reader that was given another one delivers nothing. */
  lemma OtherHeader(s: Session, plain: Bytes, t: Session, src: Bytes, tail: Tail)
    requires Ideal(s, plain) && t.aead == s.aead && |t.base| == NONCE
    requires |t.header| == |s.header| && t.header != s.header
    ensures Opened(t, src, tail, 0).data == [] && !Opened(t, src, tail, 0).error.EndOfFile?
  {
    var size := CHUNK + TAG;
    var last := |src| < size || (|src| == size && tail.AtEof?);
    var chunk := if last then src else src[..size];
    if OpenChunk(t, chunk, 0, last).Some? {
      var i := Accepted(s, plain, ChunkNonce(t.base, 0), chunk, ChunkAAD(t.header, last));
      SameData(t.header, last, s.header, i == Flushed(plain));
    }
  }
}
