/** gridfs/gridfs_stream.c: reading a stored file through a buffer that holds one chunk of it. */
module GridFSStreams {
  import opened Bytes

  /** Chunk n of a file, the bytes from n * chunkSize on. */
  predicate HasChunk(contents: bytes, chunkSize: int, n: int)
    requires chunkSize > 0
  {
    0 <= n && n * chunkSize < |contents|
  }

  function ChunkEnd(contents: bytes, chunkSize: int, n: int): int {
    if (n + 1) * chunkSize <= |contents| then (n + 1) * chunkSize else |contents|
  }

  function ChunkOf(contents: bytes, chunkSize: int, n: int): bytes
    requires chunkSize > 0 && HasChunk(contents, chunkSize, n)
  {
    Next(n, chunkSize);
    contents[n * chunkSize..ChunkEnd(contents, chunkSize, n)]
  }

  lemma Next(n: int, c: int)
    ensures (n + 1) * c == n * c + c
  {
  }

  /** Every chunk that is found is the right one. */
  ghost predicate Genuine(find: int -> Option<bytes>, contents: bytes, chunkSize: int)
    requires chunkSize > 0
  {
    forall n :: find(n).Some? ==> HasChunk(contents, chunkSize, n) && find(n).value == ChunkOf(contents, chunkSize, n)
  }

  lemma FoundIsGenuine(find: int -> Option<bytes>, contents: bytes, c: int, n: int)
    requires c > 0 && Genuine(find, contents, c) && find(n).Some?
    ensures HasChunk(contents, c, n) && find(n).value == ChunkOf(contents, c, n)
  {
  }

  ghost predicate AllThere(find: int -> Option<bytes>, contents: bytes, chunkSize: int)
    requires chunkSize > 0
  {
    forall n :: HasChunk(contents, chunkSize, n) ==> find(n).Some?
  }

  /** Division and remainder of size_t values. */
  function Quot(x: nat, c: int): nat
    requires c > 0
  {
    x / c
  }

  function Rem(x: nat, c: int): nat
    requires c > 0
  {
    x % c
  }

  lemma QuotRem(x: nat, c: int)
    requires c > 0
    ensures x == Quot(x, c) * c + Rem(x, c) && Rem(x, c) < c
  {
  }

  lemma QuotRemUnique(x: nat, q: nat, r: nat, c: int)
    requires c > 0 && x == q * c + r && r < c
    ensures Quot(x, c) == q && Rem(x, c) == r
  {
    hide Quot, Rem;
    QuotRem(x, c);
    var q', r' := Quot(x, c), Rem(x, c);
    if q' > q {
      MulAtLeast(q' - q, c);
      Distribute(q, q' - q, c);
    } else if q' < q {
      MulAtLeast(q - q', c);
      Distribute(q', q - q', c);
    }
  }

  lemma {:induction false} MulAtLeast(k: int, c: int)
    requires k >= 1 && c > 0
    ensures k * c >= c
  {
    if k > 1 {
      MulAtLeast(k - 1, c);
      Next(k - 1, c);
    }
  }

  lemma Distribute(a: int, b: int, c: int)
    ensures (a + b) * c == a * c + b * c
  {
  }

  lemma RemOfSum(x: nat, y: nat, k: nat, c: int)
    requires c > 0 && Rem(x, c) == Rem(y, c)
    ensures Rem(x + k, c) == Rem(y + k, c)
  {
    hide Quot, Rem;
    RemOfPart(x, k, c);
    RemOfPart(y, k, c);
  }

  lemma RemOfPart(x: nat, k: nat, c: int)
    requires c > 0
    ensures Rem(x + k, c) == Rem(Rem(x, c) + k, c)
  {
    hide Quot, Rem;
    QuotRem(x, c);
    var r := Rem(x, c) + k;
    QuotRem(r, c);
    Distribute(Quot(x, c), Quot(r, c), c);
    QuotRemUnique(x + k, Quot(x, c) + Quot(r, c), Rem(r, c), c);
  }

  lemma RemOfRem(x: nat, c: int)
    requires c > 0
    ensures Rem(Rem(x, c), c) == Rem(x, c)
  {
  }

  /** A position before the end lies in a chunk, `x % c` bytes into it. */
  lemma InChunk(contents: bytes, c: int, x: nat)
    requires c > 0 && x < |contents|
    ensures HasChunk(contents, c, Quot(x, c)) && Rem(x, c) < |ChunkOf(contents, c, Quot(x, c))|
  {
    QuotRem(x, c);
    Next(Quot(x, c), c);
  }

  lemma FoundWhenThere(find: int -> Option<bytes>, contents: bytes, c: int, n: int)
    requires c > 0 && AllThere(find, contents, c) && HasChunk(contents, c, n)
    ensures find(n).Some?
  {
  }

  /** Arithmetic of size_t. */
  function SizeT(x: int): nat {
    x % WORD64
  }

  /** A sum that wraps around is beyond every size. */
  lemma WrapsBeyond(x: int, size: nat)
    requires LONG_MIN <= x < WORD64 && size < LONG_MAX
    ensures SizeT(x) <= size <==> 0 <= x <= size
    ensures 0 <= x <= size ==> SizeT(x) == x
  {
  }

  /** At the very end there is a chunk only when the last one is not full. */
  lemma AtEnd(contents: bytes, c: int)
    requires c > 0
    ensures HasChunk(contents, c, Quot(|contents|, c)) <==> Rem(|contents|, c) > 0
    ensures HasChunk(contents, c, Quot(|contents|, c)) ==>
              |ChunkOf(contents, c, Quot(|contents|, c))| == Rem(|contents|, c)
  {
    QuotRem(|contents|, c);
    Next(Quot(|contents|, c), c);
  }

  /** A chunk before the last but one is full and followed by a full one. */
  lemma FullChunks(contents: bytes, c: int, n: nat)
    requires c > 0 && n + 1 < Quot(|contents|, c)
    ensures HasChunk(contents, c, n) && |ChunkOf(contents, c, n)| == c
    ensures HasChunk(contents, c, n + 1) && |ChunkOf(contents, c, n + 1)| == c
  {
    QuotRem(|contents|, c);
    Next(n, c);
    Next(n + 1, c);
    MulAtLeast(Quot(|contents|, c) - n - 1, c);
    Distribute(n + 1, Quot(|contents|, c) - n - 1, c);
  }

  lemma SizeOfChunk(contents: bytes, c: int, n: int)
    requires c > 0 && HasChunk(contents, c, n)
    ensures n * c + |ChunkOf(contents, c, n)| == ChunkEnd(contents, c, n)
  {
    Next(n, c);
  }

  lemma ChunkSlice(contents: bytes, c: int, n: int, from: nat, k: nat)
    requires c > 0 && HasChunk(contents, c, n) && from + k <= |ChunkOf(contents, c, n)|
    ensures 0 <= n * c && n * c + from + k <= |contents|
    ensures ChunkOf(contents, c, n)[from..from + k] == contents[n * c + from..n * c + from + k]
  {
    Next(n, c);
    SliceOfSlice(contents, n * c, ChunkEnd(contents, c, n), from, k);
  }

  /** How far a read from position o gets: to the end of its chunk, and of the one behind it when that is full. */
  function ReadEnd(contents: bytes, c: int, o: nat): int
    requires c > 0
  {
    var n := Quot(o, c);
    if n + 1 < Quot(|contents|, c) then (n + 2) * c else ChunkEnd(contents, c, n)
  }

  function Min(a: int, b: int): int {
    if a > b then b else a
  }

  /** memcpy */
  method MemCpy(out: array<byte>, to: nat, in_: array<byte>, from: nat, k: nat)
    requires out != in_ && to + k <= out.Length && from + k <= in_.Length
    modifies out
    ensures out[..to] == old(out[..to]) && out[to..to + k] == in_[from..from + k] && out[to + k..] == old(out[to + k..])
  {
    var i := 0;
    while i < k
      invariant i <= k
      invariant out[..to] == old(out[..to]) && out[to + k..] == old(out[to + k..])
      invariant out[to..to + i] == in_[from..from + i]
    {
      out[to + i] := in_[from + i];
      assert out[to..to + i + 1] == out[to..to + i] + [out[to + i]];
      assert in_[from..from + i + 1] == in_[from..from + i] + [in_[from + i]];
      i := i + 1;
    }
  }

  class GridFSStream {
    const find: int -> Option<bytes>
    const size: nat
    const chunkSize: int
    const totalChunks: int
    var offset: nat
    var chunkId: int
    const buffer: array<byte>
    var bufferSize: nat
    var bufferOffset: nat
    ghost const contents: bytes

    /** The buffer holds chunk chunkId, and its position agrees with the file's. */
    ghost predicate Valid()
      reads this, buffer
    {
      && 0 < chunkSize <= INT_MAX && size == |contents| < LONG_MAX && offset <= size
      && Quot(size, chunkSize) <= INT_MAX && totalChunks == Quot(size, chunkSize)
      && Genuine(find, contents, chunkSize)
      && buffer.Length == chunkSize + 1
      && (chunkId == -1 || Loaded())
    }

    ghost predicate Loaded()
      requires chunkSize > 0
      reads this, buffer
    {
      && HasChunk(contents, chunkSize, chunkId)
      && bufferSize == |ChunkOf(contents, chunkSize, chunkId)| <= buffer.Length
      && buffer[..bufferSize] == ChunkOf(contents, chunkSize, chunkId)
      && Rem(bufferOffset, chunkSize) == Rem(offset, chunkSize)
    }

    /** gridfs_stream_init */
    constructor (find: int -> Option<bytes>, size: nat, chunkSize: int, ghost contents: bytes)
      requires 0 < chunkSize <= INT_MAX && size == |contents| < LONG_MAX && Quot(size, chunkSize) <= INT_MAX
      requires Genuine(find, contents, chunkSize)
      ensures Valid() && offset == 0 && this.contents == contents && this.find == find && this.chunkSize == chunkSize
      ensures fresh(buffer)
    {
      this.find, this.size, this.chunkSize, this.contents := find, size, chunkSize, contents;
      totalChunks := Quot(size, chunkSize);
      offset, chunkId, bufferSize, bufferOffset := 0, -1, 0, 0;
      buffer := new byte[chunkSize + 1];
    }

    /** gridfs_read_chunk */
    method ReadChunk(n: int) returns (ok: bool)
      requires Valid() && 0 <= n
      modifies this`chunkId, this`bufferSize, this`bufferOffset, buffer
      ensures Valid()
      ensures ok ==> chunkId == n
      ensures ok <==> (n == old(chunkId) || find(n).Some?)
      ensures !ok ==> chunkId == old(chunkId)
    {
      hide ChunkOf, HasChunk, Genuine, Quot, Rem;
      if n == chunkId {
        return true;
      }
      var data := find(n);
      if data.None? {
        return false;
      }
      FoundIsGenuine(find, contents, chunkSize, n);
      ChunkFits(n);
      forall i | 0 <= i < |data.value| {
        buffer[i] := data.value[i];
      }
      bufferSize := |data.value|;
      assert buffer[..bufferSize] == data.value;
      chunkId := n;
      bufferOffset := Rem(offset, chunkSize);
      RemOfRem(offset, chunkSize);
      return true;
    }

    lemma ChunkFits(n: int)
      requires chunkSize > 0 && HasChunk(contents, chunkSize, n)
      ensures 0 < |ChunkOf(contents, chunkSize, n)| <= chunkSize
      ensures (n + 1) * chunkSize <= |contents| ==> |ChunkOf(contents, chunkSize, n)| == chunkSize
    {
      Next(n, chunkSize);
    }

    /** One of the two copies of a read: k bytes of the buffer go to position `to` of the caller's. */
    method CopyOut(buf: array<byte>, to: nat, from: nat, k: nat, ghost position: nat)
      requires Valid() && chunkId != -1 && buf != buffer && to + k <= buf.Length && from + k <= bufferSize
      requires position == chunkId * chunkSize + from
      modifies buf
      ensures position + k <= |contents|
      ensures buf[..to] == old(buf[..to]) && buf[to..to + k] == contents[position..position + k]
      ensures buf[to + k..] == old(buf[to + k..])
    {
      hide Genuine, Quot, Rem, ChunkOf, HasChunk;
      ChunkSlice(contents, chunkSize, chunkId, from, k);
      SliceOfSlice(buffer[..], 0, bufferSize, from, k);
      MemCpy(buf, to, buffer, from, k);
    }

    /** The first half of a read: what the chunk at the current position has. */
    method ReadHere(buf: array<byte>, count: nat, id: nat) returns (n: int)
      requires Valid() && buf != buffer && count <= buf.Length && id == Quot(offset, chunkSize)
      modifies this`chunkId, this`bufferSize, this`bufferOffset, buffer, buf
      ensures Valid()
      ensures n == -1 || (0 <= n <= count && chunkId == id && HasChunk(contents, chunkSize, id))
      ensures n >= 0 ==> offset + n <= size && buf[..n] == contents[offset..offset + n] && buf[n..] == old(buf[n..])
      ensures n >= 0 ==> n == Min(count, |ChunkOf(contents, chunkSize, id)| - Rem(offset, chunkSize))
      ensures n == 0 < count ==> offset == size
      ensures n == -1 ==> find(id).None?
      ensures AllThere(find, contents, chunkSize) ==> (n == -1 <==> offset == size && Rem(size, chunkSize) == 0)
    {
      hide Genuine, Quot, Rem, ChunkOf, HasChunk, AllThere;
      QuotRem(offset, chunkSize);
      ReadsRightChunk();
      if AllThere(find, contents, chunkSize) && HasChunk(contents, chunkSize, id) {
        FoundWhenThere(find, contents, chunkSize, id);
      }
      var ok := ReadChunk(id);
      if !ok {
        return -1;
      }
      var pos := Rem(bufferOffset, chunkSize);
      n := Min(count, bufferSize - pos);
      CopyOut(buf, 0, pos, n, offset);
      assert buf[..n] == buf[0..n];
    }

    /** The second half: what the next chunk has, when it is not the last. */
    method ReadOn(buf: array<byte>, count: nat, id: nat, done: nat) returns (more: int)
      requires Valid() && buf != buffer && done < count <= buf.Length && id == Quot(offset, chunkSize)
      requires id + 1 < totalChunks && offset + done == (id + 1) * chunkSize
      modifies this`chunkId, this`bufferSize, this`bufferOffset, buffer, buf
      ensures Valid()
      ensures more == -1 || (0 < more == Min(count - done, chunkSize) && chunkId == id + 1)
      ensures more >= 0 ==>
                && offset + done + more <= size
                && buf[..done] == old(buf[..done])
                && buf[done..done + more] == contents[offset + done..offset + done + more]
                && buf[done + more..] == old(buf[done + more..])
      ensures more == -1 ==> find(id + 1).None?
      ensures AllThere(find, contents, chunkSize) ==> more != -1
    {
      hide Genuine, Quot, Rem, ChunkOf, HasChunk, AllThere;
      FullChunks(contents, chunkSize, id);
      if AllThere(find, contents, chunkSize) {
        FoundWhenThere(find, contents, chunkSize, id + 1);
      }
      var ok := ReadChunk(id + 1);
      if !ok {
        return -1;
      }
      more := Min(count - done, bufferSize);
      CopyOut(buf, done, 0, more, offset + done);
    }

    /** The copying of gridfs_read. */
    method ReadParts(buf: array<byte>, count: nat) returns (n: int)
      requires Valid() && buf != buffer && count <= buf.Length
      modifies this`chunkId, this`bufferSize, this`bufferOffset, buffer, buf
      ensures Valid()
      ensures -1 <= n <= count
      ensures n == -1 ==> find(Quot(offset, chunkSize)).None? || find(Quot(offset, chunkSize) + 1).None?
      ensures n >= 0 ==>
                && HasChunk(contents, chunkSize, Quot(offset, chunkSize)) && offset + n <= size
                && buf[..n] == contents[offset..offset + n] && buf[n..] == old(buf[n..])
                && n == Min(count, ReadEnd(contents, chunkSize, offset) - offset)
      ensures n == 0 < count ==> offset == size
      ensures AllThere(find, contents, chunkSize) ==> (n == -1 <==> offset == size && Rem(size, chunkSize) == 0)
    {
      hide Genuine, Quot, Rem, ChunkOf, HasChunk, AllThere, ReadEnd;
      var id := Quot(offset, chunkSize);
      n := ReadHere(buf, count, id);
      if n == -1 {
        return;
      }
      EndOfHere(id, n, count);
      EndOfRead(id);
      ghost var w := buf[..];
      if n < count && id + 1 < totalChunks {
        var more := ReadOn(buf, count, id, n);
        if more == -1 {
          return -1;
        }
        BothParts(old(buf[..]), w, buf[..], contents, offset, n, more);
        n := n + more;
      }
    }

    /** gridfs_read; -1 stands for a failure. */
    method Read(buf: array<byte>, count: nat) returns (n: int)
      requires Valid() && buf != buffer && count <= buf.Length
      modifies this`offset, this`chunkId, this`bufferSize, this`bufferOffset, buffer, buf
      ensures Valid()
      ensures -1 <= n <= count
      ensures n == -1 ==>
                offset == old(offset) &&
                (find(Quot(offset, chunkSize)).None? || find(Quot(offset, chunkSize) + 1).None?)
      ensures n >= 0 ==>
                && offset == old(offset) + n
                && buf[..n] == contents[old(offset)..offset] && buf[n..] == old(buf[n..])
      ensures n == 0 < count ==> offset == size
      ensures 0 <= n < count ==> offset == size || Rem(offset, chunkSize) == 0
      ensures n >= 0 ==> n == Min(count, ReadEnd(contents, chunkSize, old(offset)) - old(offset))
      // up to a chunk's length at once, two chunks and more before the end
      ensures n >= 0 && count <= chunkSize && old(offset) + 2 * chunkSize <= size ==> n == count
      ensures AllThere(find, contents, chunkSize) ==> (n == -1 <==> old(offset) == size && Rem(size, chunkSize) == 0)
    {
      hide Genuine, Quot, Rem, ChunkOf, HasChunk, AllThere, ReadEnd;
      n := ReadParts(buf, count);
      if n == -1 {
        return;
      }
      ReadStops();
      Advance(n);
    }

    method Advance(n: nat)
      requires Valid() && offset + n <= size
      modifies this`offset, this`bufferOffset
      ensures Valid() && offset == old(offset) + n
    {
      hide Genuine, Quot, Rem, ChunkOf, HasChunk;
      if chunkId != -1 {
        RemOfSum(bufferOffset, offset, n, chunkSize);
      }
      bufferOffset := bufferOffset + n;
      offset := offset + n;
    }

    /** The two copies side by side. */
    static lemma BothParts(w0: bytes, w1: bytes, w2: bytes, contents: bytes, o: nat, n: nat, m: nat)
      requires |w0| == |w1| == |w2| && n + m <= |w2| && o + n + m <= |contents|
      requires w1[..n] == contents[o..o + n] && w1[n..] == w0[n..]
      requires w2[..n] == w1[..n] && w2[n..n + m] == contents[o + n..o + n + m] && w2[n + m..] == w1[n + m..]
      ensures w2[..n + m] == contents[o..o + n + m] && w2[n + m..] == w0[n + m..]
    {
      assert w2[..n + m] == w2[..n] + w2[n..n + m];
      assert w1[n + m..] == w1[n..][m..] && w0[n + m..] == w0[n..][m..];
    }

    lemma EndOfHere(id: nat, n: nat, count: nat)
      requires Valid() && id == Quot(offset, chunkSize) && HasChunk(contents, chunkSize, id)
      requires n == Min(count, |ChunkOf(contents, chunkSize, id)| - Rem(offset, chunkSize))
      ensures n < count && id + 1 < totalChunks ==> offset + n == (id + 1) * chunkSize
    {
      hide Quot, Rem;
      QuotRem(offset, chunkSize);
      SizeOfChunk(contents, chunkSize, id);
      if id + 1 < totalChunks {
        FullChunks(contents, chunkSize, id);
        Next(id, chunkSize);
      }
    }

    /** Where a read ends that is not cut short by what was asked for. */
    lemma ReadStops()
      requires Valid() && HasChunk(contents, chunkSize, Quot(offset, chunkSize))
      ensures var end := ReadEnd(contents, chunkSize, offset);
              && (end == size || (end >= 0 && Rem(end, chunkSize) == 0))
              && (offset + 2 * chunkSize <= size ==> end - offset >= chunkSize)
    {
      hide Quot, Rem;
      var n := Quot(offset, chunkSize);
      QuotRem(offset, chunkSize);
      QuotRem(|contents|, chunkSize);
      Next(n, chunkSize);
      Next(n + 1, chunkSize);
      MulAtLeast(n + 1, chunkSize);
      MulAtLeast(n + 2, chunkSize);
      QuotRemUnique((n + 1) * chunkSize, n + 1, 0, chunkSize);
      QuotRemUnique((n + 2) * chunkSize, n + 2, 0, chunkSize);
      if Quot(|contents|, chunkSize) < n + 2 {
        MulAtLeast(n + 2 - Quot(|contents|, chunkSize), chunkSize);
        Distribute(Quot(|contents|, chunkSize), n + 2 - Quot(|contents|, chunkSize), chunkSize);
      }
    }

    lemma EndOfRead(id: nat)
      requires Valid() && id == Quot(offset, chunkSize) && HasChunk(contents, chunkSize, id)
      ensures var here := |ChunkOf(contents, chunkSize, id)| - Rem(offset, chunkSize);
              ReadEnd(contents, chunkSize, offset) - offset == here + if id + 1 < totalChunks then chunkSize else 0
    {
      hide Quot, Rem;
      QuotRem(offset, chunkSize);
      SizeOfChunk(contents, chunkSize, id);
      Next(id + 1, chunkSize);
      if id + 1 < totalChunks {
        FullChunks(contents, chunkSize, id);
        Next(id, chunkSize);
      }
    }

    /** The chunk at the current position: when it exists, and how much of it is left. */
    lemma ReadsRightChunk()
      requires Valid()
      ensures offset < size || Rem(size, chunkSize) > 0 <==> HasChunk(contents, chunkSize, Quot(offset, chunkSize))
      ensures HasChunk(contents, chunkSize, Quot(offset, chunkSize)) ==>
                Rem(offset, chunkSize) <= |ChunkOf(contents, chunkSize, Quot(offset, chunkSize))|
      ensures offset < size ==> Rem(offset, chunkSize) < |ChunkOf(contents, chunkSize, Quot(offset, chunkSize))|
    {
      if offset < size {
        InChunk(contents, chunkSize, offset);
      } else {
        AtEnd(contents, chunkSize);
      }
    }

    /** gridfs_seek */
    method Seek(distance: int, whence: Whence) returns (ok: bool, newOffset: nat)
      requires Valid() && IsInt64(distance)
      modifies this`offset, this`bufferOffset
      ensures Valid()
      ensures ok <==> whence != Other && 0 <= old(Base(whence)) + distance <= size
      ensures ok ==> newOffset == offset == old(Base(whence)) + distance
      ensures !ok ==> offset == old(offset) && bufferOffset == old(bufferOffset)
    {
      hide ChunkOf, HasChunk, Genuine, Quot, Rem, SizeT;
      newOffset := 0;
      WrapsBeyond(Base(whence) + distance, size);
      match whence {
        case Set => newOffset := SizeT(distance);
        case Current => newOffset := SizeT(offset + distance);
        case End => newOffset := SizeT(size + distance);
        case Other => return false, 0;
      }
      if newOffset > size {
        return false, 0;
      }
      offset := newOffset;
      if chunkId != -1 {
        bufferOffset := Rem(newOffset, chunkSize);
        RemOfRem(newOffset, chunkSize);
      }
      return true, newOffset;
    }

    function Base(whence: Whence): nat
      reads this`offset
    {
      match whence
      case Current => offset
      case End => size
      case _ => 0
    }
  }

  datatype Whence = Set | Current | End | Other

  /** Reading on until nothing more comes, as fread and stream_get_contents do: the rest of the file. */
  method ReadAll(stream: GridFSStream, count: nat) returns (data: bytes)
    requires stream.Valid() && AllThere(stream.find, stream.contents, stream.chunkSize) && count > 0
    modifies stream`offset, stream`chunkId, stream`bufferSize, stream`bufferOffset, stream.buffer
    ensures stream.Valid() && stream.offset == stream.size && data == stream.contents[old(stream.offset)..]
  {
    hide Genuine, Quot, Rem, ChunkOf, HasChunk, AllThere, ReadEnd;
    ghost var start := stream.offset;
    var buf := new byte[count];
    data := [];
    var n := 1;
    while n > 0
      invariant stream.Valid() && start <= stream.offset && data == stream.contents[start..stream.offset]
      invariant n <= 0 ==> stream.offset == stream.size
      decreases if n > 0 then 1 else 0, stream.size - stream.offset
    {
      ghost var before := stream.offset;
      n := stream.Read(buf, count);
      if n > 0 {
        assert stream.contents[start..before] + stream.contents[before..stream.offset] ==
               stream.contents[start..stream.offset];
        data := data + buf[..n];
      }
    }
  }
}
