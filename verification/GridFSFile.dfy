/** gridfs/gridfs.c and gridfs/gridfs_file.c: a string of bytes stored as numbered chunks, and read back whole. */
module GridFSFiles {
  import opened Bytes
  import opened GridFSStreams

  datatype Chunk = Chunk(id: int, filesId: int, n: int, data: bytes)

  /** The chunks collection. */
  class ChunkCollection {
    var docs: seq<Chunk>

    /** MongoCollection::insert; a failing insert leaves nothing behind. */
    method Insert(c: Chunk, works: bool) returns (ok: bool)
      modifies this
      ensures ok == works && docs == if works then old(docs) + [c] else old(docs)
    {
      if works {
        docs := docs + [c];
      }
      return works;
    }

    /** MongoCollection::remove by _id */
    method Remove(id: int)
      modifies this
      ensures docs == Without(old(docs), id)
    {
      docs := Without(docs, id);
    }
  }

  function Without(docs: seq<Chunk>, id: int): seq<Chunk> {
    if docs == [] then []
    else (if docs[0].id == id then [] else [docs[0]]) + Without(docs[1..], id)
  }

  lemma {:induction false} WithoutAbsent(docs: seq<Chunk>, id: int)
    requires forall d :: d in docs ==> d.id != id
    ensures Without(docs, id) == docs
  {
    if docs != [] {
      WithoutAbsent(docs[1..], id);
    }
  }

  /** Removing the one document with that id. */
  lemma {:induction false} WithoutOne(before: seq<Chunk>, c: Chunk, after: seq<Chunk>)
    requires forall d :: d in before || d in after ==> d.id != c.id
    ensures Without(before + [c] + after, c.id) == before + after
  {
    if before == [] {
      assert ([] + [c] + after)[1..] == after;
      WithoutAbsent(after, c.id);
      assert [] + after == after;
    } else {
      WithoutOne(before[1..], c, after);
      assert (before + [c] + after)[1..] == before[1..] + [c] + after;
      assert [before[0]] + (before[1..] + after) == before + after;
    }
  }

  /** get_chunk_size: the user's, when it is positive. */
  function ChunkSizeOf(user: Option<int>, default: int): int {
    if user.None? || user.value <= 0 then default else user.value
  }

  /** The first k chunks of a file, numbered from 0. */
  ghost function Chunks(data: bytes, chunkSize: int, filesId: int, ids: nat -> int, k: nat): seq<Chunk>
    requires chunkSize > 0 && forall i :: 0 <= i < k ==> HasChunk(data, chunkSize, i)
  {
    seq(k, i requires 0 <= i < k => Chunk(ids(i), filesId, i, ChunkOf(data, chunkSize, i)))
  }

  /** ceil(length / chunkSize) */
  function Pieces(length: nat, chunkSize: int): nat
    requires chunkSize > 0
  {
    Quot(length, chunkSize) + if Rem(length, chunkSize) > 0 then 1 else 0
  }

  /** Exactly the chunks below Pieces exist, and all but the last are full. */
  lemma PiecesAreTheChunks(data: bytes, c: int, n: nat)
    requires c > 0
    ensures HasChunk(data, c, n) <==> n < Pieces(|data|, c)
    ensures n + 1 < Pieces(|data|, c) ==> |ChunkOf(data, c, n)| == c
  {
    hide Quot, Rem;
    QuotRem(|data|, c);
    var q := Quot(|data|, c);
    Next(n, c);
    if n < q {
      MulAtLeast(q - n, c);
      Distribute(n, q - n, c);
    } else if n > q {
      MulAtLeast(n - q, c);
      Distribute(q, n - q, c);
    }
    if n + 1 < q {
      MulAtLeast(q - n - 1, c);
      Distribute(n + 1, q - n - 1, c);
    }
  }

  datatype FileDoc = FileDoc(id: int, length: int, chunkSize: int)

  class FileCollection {
    var docs: seq<FileDoc>

    method Insert(f: FileDoc, works: bool) returns (ok: bool)
      modifies this
      ensures ok == works && docs == if works then old(docs) + [f] else old(docs)
    {
      if works {
        docs := docs + [f];
      }
      return works;
    }
  }

  /** What getlasterror answers after the chunks have been inserted. */
  datatype LastError = Fine | Failed | NoAnswer

  /** Thrown stands for an exception after which nothing has been removed again. */
  datatype StoreResult = Stored | Reverted | Thrown

  /** Fresh and distinct ids, as the driver generates them. */
  ghost predicate FreshIds(docs: seq<Chunk>, ids: nat -> int) {
    && (forall i: nat, j: nat :: i < j ==> ids(i) != ids(j))
    && (forall d: Chunk, i: nat :: d in docs ==> d.id != ids(i))
  }

  /** cleanup_stale_chunks */
  method CleanupStaleChunks(chunks: ChunkCollection, cleanup: seq<int>, ghost before: seq<Chunk>, ghost data: bytes,
                            ghost chunkSize: int, ghost filesId: int, ghost ids: nat -> int)
    requires chunkSize > 0 && FreshIds(before, ids)
    requires forall i :: 0 <= i < |cleanup| ==> cleanup[i] == ids(i)
    requires forall i :: 0 <= i < |cleanup| ==> HasChunk(data, chunkSize, i)
    requires chunks.docs == before + Chunks(data, chunkSize, filesId, ids, |cleanup|)
    modifies chunks
    ensures chunks.docs == before
  {
    hide HasChunk, ChunkOf;
    ghost var stored := Chunks(data, chunkSize, filesId, ids, |cleanup|);
    var i := 0;
    while i < |cleanup|
      invariant i <= |cleanup|
      invariant chunks.docs == before + stored[i..]
    {
      assert stored[i..] == [stored[i]] + stored[i + 1..];
      assert before + ([stored[i]] + stored[i + 1..]) == before + [stored[i]] + stored[i + 1..];
      forall d | d in stored[i + 1..]
        ensures d.id != stored[i].id
      {
        var k :| 0 <= k < |stored[i + 1..]| && stored[i + 1..][k] == d;
        assert d == stored[i + 1 + k];
      }
      WithoutOne(before, stored[i], stored[i + 1..]);
      chunks.Remove(cleanup[i]);
      i := i + 1;
    }
    assert stored[i..] == [] && before + [] == before;
  }

  /** The chunk loop of storeBytes: stops at the first insert that fails. */
  method InsertChunks(chunks: ChunkCollection, data: bytes, chunkSize: int, filesId: int, ids: nat -> int,
                      works: nat -> bool)
    returns (done: bool, cleanup: seq<int>)
    requires chunkSize > 0
    modifies chunks
    ensures forall i :: 0 <= i < |cleanup| ==> cleanup[i] == ids(i) && HasChunk(data, chunkSize, i) && works(i)
    ensures chunks.docs == old(chunks.docs) + Chunks(data, chunkSize, filesId, ids, |cleanup|)
    ensures |cleanup| <= Pieces(|data|, chunkSize)
    ensures done <==> |cleanup| == Pieces(|data|, chunkSize)
    ensures !done ==> !works(|cleanup|)
  {
    hide HasChunk, ChunkOf, Pieces;
    var pos, chunkNum := 0, 0;
    cleanup := [];
    while pos < |data|
      invariant 0 <= pos <= |data| && chunkNum == |cleanup|
      invariant pos == |data| || pos == chunkNum * chunkSize
      invariant chunkNum * chunkSize >= pos
      invariant forall i :: 0 <= i < chunkNum ==> cleanup[i] == ids(i) && HasChunk(data, chunkSize, i) && works(i)
      invariant chunks.docs == old(chunks.docs) + Chunks(data, chunkSize, filesId, ids, chunkNum)
      decreases |data| - pos
    {
      var size := if |data| - pos >= chunkSize then chunkSize else |data| - pos;
      SliceIsChunk(data, chunkSize, chunkNum, pos, size);
      PiecesAreTheChunks(data, chunkSize, chunkNum);
      var ok := chunks.Insert(Chunk(ids(chunkNum), filesId, chunkNum, data[pos..pos + size]), works(chunkNum));
      if !ok {
        return false, cleanup;
      }
      OneMoreChunk(data, chunkSize, filesId, ids, chunkNum);
      Next(chunkNum, chunkSize);
      cleanup := cleanup + [ids(chunkNum)];
      pos := pos + size;
      chunkNum := chunkNum + 1;
    }
    NoMoreChunks(data, chunkSize, chunkNum);
    return true, cleanup;
  }

  lemma SliceIsChunk(data: bytes, c: int, n: nat, pos: nat, size: nat)
    requires c > 0 && pos == n * c < |data| && size == if |data| - pos >= c then c else |data| - pos
    ensures HasChunk(data, c, n) && ChunkOf(data, c, n) == data[pos..pos + size]
  {
    Next(n, c);
  }

  lemma OneMoreChunk(data: bytes, c: int, filesId: int, ids: nat -> int, k: nat)
    requires c > 0 && forall i :: 0 <= i <= k ==> HasChunk(data, c, i)
    ensures Chunks(data, c, filesId, ids, k + 1) ==
            Chunks(data, c, filesId, ids, k) + [Chunk(ids(k), filesId, k, ChunkOf(data, c, k))]
  {
    hide HasChunk, ChunkOf;
  }

  lemma NoMoreChunks(data: bytes, c: int, k: nat)
    requires c > 0 && k * c >= |data| && forall i :: 0 <= i < k ==> HasChunk(data, c, i)
    ensures k == Pieces(|data|, c)
  {
    PiecesAreTheChunks(data, c, k);
    if k > 0 {
      PiecesAreTheChunks(data, c, k - 1);
    }
  }

  /** MongoGridFS::storeBytes */
  method StoreBytes(chunks: ChunkCollection, files: FileCollection, filesId: int, data: bytes, user: Option<int>,
                    default: int, ids: nat -> int, works: nat -> bool, lastError: LastError, fileWorks: bool)
    returns (r: StoreResult)
    requires default > 0 && FreshIds(chunks.docs, ids)
    modifies chunks, files
    ensures var chunkSize := ChunkSizeOf(user, default);
            var k := Pieces(|data|, chunkSize);
            && (forall i :: 0 <= i < k ==> HasChunk(data, chunkSize, i))
            && (r.Stored? <==> (forall i :: 0 <= i < k ==> works(i)) && lastError.Fine? && fileWorks)
            && (r.Thrown? <==> (forall i :: 0 <= i < k ==> works(i)) && lastError.Failed?)
            && chunks.docs == old(chunks.docs) + (if r.Reverted? then [] else Chunks(data, chunkSize, filesId, ids, k))
    ensures files.docs == old(files.docs) +
                          (if r.Stored? then [FileDoc(filesId, |data|, if user.None? then default else user.value)]
                           else [])
  {
    hide HasChunk, ChunkOf, Pieces;
    var chunkSize := ChunkSizeOf(user, default);
    forall i: nat | i < Pieces(|data|, chunkSize)
      ensures HasChunk(data, chunkSize, i)
    {
      PiecesAreTheChunks(data, chunkSize, i);
    }
    ghost var before := chunks.docs;
    var done, cleanup := InsertChunks(chunks, data, chunkSize, filesId, ids, works);
    var revert := !done;
    if done && lastError.NoAnswer? {
      revert := true;
    } else if done && lastError.Failed? {
      return Thrown;
    } else if done {
      var ok := files.Insert(FileDoc(filesId, |data|, if user.None? then default else user.value), fileWorks);
      revert := !ok;
    }
    if revert {
      CleanupStaleChunks(chunks, cleanup, before, data, chunkSize, filesId, ids);
      return Reverted;
    }
    return Stored;
  }

  // --- reading back ---

  /** A chunk document as the cursor hands it out; Broken stands for an error report of the database. */
  datatype ChunkDoc = Data(data: bytes) | WrongType | Broken

  const MORE_DATA := 1
  const ERROR_READING := 17

  function AllData(docs: seq<ChunkDoc>): bytes
    requires forall d :: d in docs ==> d.Data?
  {
    if docs == [] then [] else AllData(docs[..|docs| - 1]) + docs[|docs| - 1].data
  }

  /** The first document that is not data, or that brings the total over max, ends the copying. */
  ghost predicate EndsAt(docs: seq<ChunkDoc>, max: int, i: nat, code: int) {
    && i < |docs| && (forall k :: 0 <= k < i ==> docs[k].Data?)
    && if docs[i].Data? then code == MORE_DATA && |AllData(docs[..i])| <= max < |AllData(docs[..i + 1])|
       else code == ERROR_READING && |AllData(docs[..i])| <= max
  }

  ghost predicate Offends(docs: seq<ChunkDoc>, max: int, code: int) {
    if docs == [] then code == ERROR_READING else exists i: nat :: EndsAt(docs, max, i, code)
  }

  /** copy_bytes */
  method CopyBytes(to: array<byte>, at: nat, data: bytes)
    requires at + |data| <= to.Length
    modifies to
    ensures to[..at + |data|] == old(to[..at]) + data && to[at + |data|..] == old(to[at..])[|data|..]
  {
    ghost var was := to[..];
    forall k | 0 <= k < |data| {
      to[at + k] := data[k];
    }
    assert to[..at + |data|] == was[..at] + data;
    assert to[at + |data|..] == was[at..][|data|..];
  }

  /** apply_to_cursor with copy_bytes: the number of bytes copied to the front of `to`. */
  method ApplyToCursor(docs: seq<ChunkDoc>, to: array<byte>, max: nat) returns (r: Result<nat>)
    requires max <= to.Length
    modifies to
    ensures r.Ok? <==> docs != [] && (forall d :: d in docs ==> d.Data?) && |AllData(docs)| <= max
    ensures r.Ok? ==>
              r.value == |AllData(docs)| && to[..r.value] == AllData(docs) && to[r.value..] == old(to[r.value..])
    ensures r.Err? ==> Offends(docs, max, r.code)
  {
    if docs == [] {
      return Err(ERROR_READING);
    }
    var total, i := 0, 0;
    ghost var w := to[..];
    while i < |docs|
      invariant i <= |docs| && forall k :: 0 <= k < i ==> docs[k].Data?
      invariant total == |AllData(docs[..i])| <= max
      invariant to[..total] == AllData(docs[..i]) && to[total..] == w[total..]
    {
      assert docs[..i + 1][..i] == docs[..i];
      if !docs[i].Data? {
        assert EndsAt(docs, max, i, ERROR_READING);
        return Err(ERROR_READING);
      }
      var data := docs[i].data;
      if total + |data| > max {
        assert EndsAt(docs, max, i, MORE_DATA);
        PrefixIsShorter(docs, i + 1);
        return Err(MORE_DATA);
      }
      CopyBytes(to, total, data);
      total := total + |data|;
      i := i + 1;
    }
    assert docs[..i] == docs;
    return Ok(total);
  }

  lemma {:induction false} PrefixIsShorter(docs: seq<ChunkDoc>, k: nat)
    requires k <= |docs|
    ensures (forall d :: d in docs ==> d.Data?) ==>
              (forall d :: d in docs[..k] ==> d.Data?) && |AllData(docs[..k])| <= |AllData(docs)|
  {
    if k < |docs| {
      PrefixIsShorter(docs[..|docs| - 1], k);
      assert docs[..|docs| - 1][..k] == docs[..k];
    } else {
      assert docs[..k] == docs;
    }
  }

  /** MongoGridFSFile::getBytes for a file whose metadata says `length`. */
  method GetBytes(docs: seq<ChunkDoc>, length: nat) returns (r: Result<bytes>)
    ensures r.Ok? <==> docs != [] && (forall d :: d in docs ==> d.Data?) && |AllData(docs)| <= length + 1
    ensures r.Err? ==> Offends(docs, length + 1, r.code)
    ensures r.Ok? ==> |r.value| == length
    ensures r.Ok? ==> forall i :: 0 <= i < length ==> r.value[i] == if i < |AllData(docs)| then AllData(docs)[i] else 0
  {
    var str := new byte[length + 1](i => 0);
    var copied := ApplyToCursor(docs, str, length + 1);
    if copied.Err? {
      return Err(copied.code);
    }
    ghost var n := copied.value;
    assert forall i :: n <= i <= length ==> str[i] == str[n..][i - n];
    assert forall i :: 0 <= i < n ==> str[i] == str[..n][i];
    str[length] := 0;
    return Ok(str[..length]);
  }
}
