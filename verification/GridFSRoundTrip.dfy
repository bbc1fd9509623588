/** Storing a file and reading it back, whole or as a stream, from a collection that other files share. */
module GridFSRoundTrips {
  import opened Bytes
  import opened GridFSStreams
  import opened GridFSFiles

  // --- the queries, as the server answers them ---

  predicate Sorted(found: seq<Chunk>) {
    forall i, j :: 0 <= i < j < |found| ==> found[i].n <= found[j].n
  }

  function OfFile(docs: seq<Chunk>, filesId: int): seq<Chunk> {
    if docs == [] then []
    else OfFile(docs[..|docs| - 1], filesId) + if docs[|docs| - 1].filesId == filesId then [docs[|docs| - 1]] else []
  }

  /** An answer to find({files_id}) sorted by n: the file's chunks and no others, in ascending order. */
  ghost predicate IsAnswer(docs: seq<Chunk>, filesId: int, found: seq<Chunk>) {
    multiset(found) == multiset(OfFile(docs, filesId)) && Sorted(found)
  }

  /** findOne({files_id, n}) */
  function FindOne(docs: seq<Chunk>, filesId: int, n: int): (r: Option<bytes>)
    ensures r.Some? ==> exists d :: d in docs && d.filesId == filesId && d.n == n && d.data == r.value
    ensures r.None? ==> forall d :: d in docs ==> d.filesId != filesId || d.n != n
  {
    if docs == [] then None
    else if docs[0].filesId == filesId && docs[0].n == n then Some(docs[0].data)
    else FindOne(docs[1..], filesId, n)
  }

  /** What the cursor hands out. */
  function Handed(found: seq<Chunk>): seq<ChunkDoc> {
    seq(|found|, i requires 0 <= i < |found| => Data(found[i].data))
  }

  // --- what the queries find after storing ---

  predicate Foreign(others: seq<Chunk>, filesId: int) {
    forall d :: d in others ==> d.filesId != filesId
  }

  /** The collection holds the chunks of this file, and beside them chunks of other files, in any order. */
  ghost predicate Holds(docs: seq<Chunk>, data: bytes, c: int, filesId: int, ids: nat -> int)
    requires c > 0
  {
    && (forall i :: 0 <= i < Pieces(|data|, c) ==> HasChunk(data, c, i))
    && exists others: seq<Chunk> ::
         Foreign(others, filesId) &&
             multiset(docs) == multiset(others + Chunks(data, c, filesId, ids, Pieces(|data|, c)))
  }

  lemma {:induction false} OfFileIsFiltered(docs: seq<Chunk>, filesId: int, d: Chunk)
    ensures multiset(OfFile(docs, filesId))[d] == if d.filesId == filesId then multiset(docs)[d] else 0
  {
    if docs != [] {
      OfFileIsFiltered(docs[..|docs| - 1], filesId, d);
      assert docs == docs[..|docs| - 1] + [docs[|docs| - 1]];
    }
  }

  lemma LastIsLast(a: seq<Chunk>, b: seq<Chunk>)
    requires multiset(a) == multiset(b) && Sorted(a) && |a| == |b| > 0
    requires forall i, j :: 0 <= i < j < |b| ==> b[i].n < b[j].n
    ensures a[|a| - 1] == b[|b| - 1]
  {
    var last := |a| - 1;
    assert a[last] in multiset(b) && b[last] in multiset(a);
    var i :| 0 <= i <= last && b[i] == a[last];
    var j :| 0 <= j <= last && a[j] == b[last];
    assert b[i].n <= b[last].n == a[j].n <= a[last].n;
  }

  lemma WithoutLast(a: seq<Chunk>, b: seq<Chunk>, d: Chunk)
    requires multiset(a + [d]) == multiset(b + [d])
    ensures multiset(a) == multiset(b)
  {
    assert multiset(a) == multiset(a + [d]) - multiset{d};
    assert multiset(b) == multiset(b + [d]) - multiset{d};
  }

  /** Sorted by numbers that differ, the same chunks are the same list. */
  lemma {:induction false} SortedOnce(a: seq<Chunk>, b: seq<Chunk>)
    requires multiset(a) == multiset(b) && Sorted(a)
    requires forall i, j :: 0 <= i < j < |b| ==> b[i].n < b[j].n
    ensures a == b
  {
    assert |a| == |multiset(a)| == |multiset(b)| == |b|;
    if a != [] {
      var last := |a| - 1;
      LastIsLast(a, b);
      assert a == a[..last] + [a[last]] && b == b[..last] + [a[last]];
      WithoutLast(a[..last], b[..last], a[last]);
      SortedOnce(a[..last], b[..last]);
    }
  }

  /** The query finds the chunks that were stored, in the order of their numbers, and nothing else. */
  lemma AnswerIsTheChunks(docs: seq<Chunk>, data: bytes, c: int, filesId: int, ids: nat -> int, found: seq<Chunk>)
    requires c > 0 && Holds(docs, data, c, filesId, ids)
    ensures IsAnswer(docs, filesId, found) <==> found == Chunks(data, c, filesId, ids, Pieces(|data|, c))
  {
    hide HasChunk, ChunkOf, Pieces, OfFile;
    var stored := Chunks(data, c, filesId, ids, Pieces(|data|, c));
    SameChunks(docs, data, c, filesId, ids);
    if IsAnswer(docs, filesId, found) {
      SortedOnce(found, stored);
    }
  }

  lemma SameChunks(docs: seq<Chunk>, data: bytes, c: int, filesId: int, ids: nat -> int)
    requires c > 0 && Holds(docs, data, c, filesId, ids)
    ensures multiset(OfFile(docs, filesId)) == multiset(Chunks(data, c, filesId, ids, Pieces(|data|, c)))
  {
    hide HasChunk, ChunkOf, Pieces, OfFile;
    var stored := Chunks(data, c, filesId, ids, Pieces(|data|, c));
    var others: seq<Chunk> :| Foreign(others, filesId) && multiset(docs) == multiset(others + stored);
    forall d: Chunk
      ensures multiset(OfFile(docs, filesId))[d] == multiset(stored)[d]
    {
      OfFileIsFiltered(docs, filesId, d);
      assert multiset(others + stored)[d] == multiset(others)[d] + multiset(stored)[d];
      if d.filesId == filesId {
        assert d !in others && multiset(others)[d] == 0;
      } else {
        assert forall i :: 0 <= i < |stored| ==> stored[i].filesId == filesId;
        assert d !in stored && multiset(stored)[d] == 0;
      }
    }
  }

  /** Looking chunks up by file and number is all the stream relies on. */
  lemma StoredServesStream(docs: seq<Chunk>, data: bytes, c: int, filesId: int, ids: nat -> int,
                           find: int -> Option<bytes>)
    requires c > 0 && Holds(docs, data, c, filesId, ids) && forall n :: find(n) == FindOne(docs, filesId, n)
    ensures Genuine(find, data, c) && AllThere(find, data, c)
  {
    hide HasChunk, ChunkOf, Pieces, FindOne;
    forall n | find(n).Some?
      ensures HasChunk(data, c, n) && find(n).value == ChunkOf(data, c, n)
    {
      var d :| d in docs && d.filesId == filesId && d.n == n && d.data == FindOne(docs, filesId, n).value;
      StoredOfFile(docs, data, c, filesId, ids, d);
    }
    forall n | HasChunk(data, c, n)
      ensures find(n).Some?
    {
      StoredChunk(docs, data, c, filesId, ids, n);
    }
  }

  /** Whatever the collection has of the file is one of its chunks. */
  lemma StoredOfFile(docs: seq<Chunk>, data: bytes, c: int, filesId: int, ids: nat -> int, d: Chunk)
    requires c > 0 && Holds(docs, data, c, filesId, ids) && d in docs && d.filesId == filesId
    ensures HasChunk(data, c, d.n) && d.data == ChunkOf(data, c, d.n)
  {
    hide HasChunk, ChunkOf, Pieces;
    var stored := Chunks(data, c, filesId, ids, Pieces(|data|, c));
    var others: seq<Chunk> :| Foreign(others, filesId) && multiset(docs) == multiset(others + stored);
    assert d in multiset(docs) && d in others + stored;
    assert d in stored;
  }

  lemma StoredChunk(docs: seq<Chunk>, data: bytes, c: int, filesId: int, ids: nat -> int, n: int)
    requires c > 0 && Holds(docs, data, c, filesId, ids) && HasChunk(data, c, n)
    ensures exists d :: d in docs && d.filesId == filesId && d.n == n
  {
    assert n >= 0;
    hide ChunkOf, Pieces, HasChunk;
    PiecesAreTheChunks(data, c, n);
    var stored := Chunks(data, c, filesId, ids, Pieces(|data|, c));
    var others: seq<Chunk> :| Foreign(others, filesId) && multiset(docs) == multiset(others + stored);
    assert stored[n] in others + stored && stored[n] in multiset(docs);
  }

  // --- the whole way ---

  /** The bytes that the first k chunks hold. */
  function Upto(data: bytes, c: int, k: nat): (n: nat)
    ensures n <= |data|
  {
    if 0 <= k * c <= |data| then k * c else |data|
  }

  lemma UptoNext(data: bytes, c: int, k: nat)
    requires c > 0 && HasChunk(data, c, k)
    ensures data[..Upto(data, c, k + 1)] == data[..Upto(data, c, k)] + ChunkOf(data, c, k)
  {
    Next(k, c);
  }

  lemma {:induction false} ChunksJoin(data: bytes, c: int, filesId: int, ids: nat -> int, k: nat)
    requires c > 0 && forall i :: 0 <= i < k ==> HasChunk(data, c, i)
    ensures AllData(Handed(Chunks(data, c, filesId, ids, k))) == data[..Upto(data, c, k)]
  {
    hide HasChunk, ChunkOf, Upto;
    if k == 0 {
      assert Upto(data, c, 0) == 0 by { UptoNone(data, c); }
    } else {
      ChunksJoin(data, c, filesId, ids, k - 1);
      OneMoreChunk(data, c, filesId, ids, k - 1);
      var docs := Handed(Chunks(data, c, filesId, ids, k));
      assert docs[..k - 1] == Handed(Chunks(data, c, filesId, ids, k - 1));
      UptoNext(data, c, k - 1);
    }
  }

  lemma UptoNone(data: bytes, c: int)
    ensures Upto(data, c, 0) == 0
  {
  }

  /** Whatever order the collection is in: the answer to the query, put together, is the data. */
  lemma StoredComesBack(docs: seq<Chunk>, data: bytes, c: int, filesId: int, ids: nat -> int, found: seq<Chunk>)
    requires c > 0 && Holds(docs, data, c, filesId, ids) && IsAnswer(docs, filesId, found)
    ensures AllData(Handed(found)) == data && (found != [] <==> data != [])
  {
    hide Quot, Rem;
    var k := Pieces(|data|, c);
    AnswerIsTheChunks(docs, data, c, filesId, ids, found);
    PiecesAreTheChunks(data, c, k);
    PiecesAreTheChunks(data, c, 0);
    ChunksJoin(data, c, filesId, ids, k);
    assert data[..|data|] == data;
  }

  /** A server that keeps the chunks in any order it likes and answers queries for a file, sorted by n. */
  ghost predicate Serves(query: (seq<Chunk>, int) -> seq<Chunk>) {
    forall docs, filesId :: IsAnswer(docs, filesId, query(docs, filesId))
  }

  lemma StoredHolds(before: seq<Chunk>, docs: seq<Chunk>, data: bytes, c: int, filesId: int, ids: nat -> int)
    requires c > 0 && Foreign(before, filesId)
    requires forall i :: 0 <= i < Pieces(|data|, c) ==> HasChunk(data, c, i)
    requires docs == before + Chunks(data, c, filesId, ids, Pieces(|data|, c))
    ensures Holds(docs, data, c, filesId, ids)
  {
    hide HasChunk, ChunkOf, Pieces;
  }

  /** storeBytes and getBytes undo each other, except for the empty string, which has no chunks to find. */
  method StoreAndGet(chunks: ChunkCollection, files: FileCollection, filesId: int, data: bytes, user: Option<int>,
                     default: int, ids: nat -> int, works: nat -> bool, lastError: LastError, fileWorks: bool,
                     query: (seq<Chunk>, int) -> seq<Chunk>)
    returns (stored: StoreResult, back: Result<bytes>)
    requires default > 0 && FreshIds(chunks.docs, ids) && Serves(query)
    requires Foreign(chunks.docs, filesId)
    modifies chunks, files
    ensures stored.Stored? ==> back == if data == [] then Err(ERROR_READING) else Ok(data)
    ensures !stored.Stored? ==> files.docs == old(files.docs)
  {
    hide HasChunk, ChunkOf, Pieces, OfFile, AllData, Sorted, FreshIds;
    ghost var before := chunks.docs;
    stored := StoreBytes(chunks, files, filesId, data, user, default, ids, works, lastError, fileWorks);
    back := Err(ERROR_READING);
    if stored.Stored? {
      var file := files.docs[|files.docs| - 1];
      var found := query(chunks.docs, file.id);
      StoredHolds(before, chunks.docs, data, ChunkSizeOf(user, default), filesId, ids);
      StoredComesBack(chunks.docs, data, ChunkSizeOf(user, default), filesId, ids, found);
      back := GetBytes(Handed(found), file.length);
      assert Handed(found) != [] ==> back.Ok? && back.value == data;
    }
  }

  /** A stream over the stored file reads its bytes. */
  method StoreAndOpen(chunks: ChunkCollection, files: FileCollection, filesId: int, data: bytes, user: Option<int>,
                      default: int, ids: nat -> int, works: nat -> bool, lastError: LastError, fileWorks: bool)
    returns (stored: StoreResult, stream: GridFSStream?)
    requires default > 0 && FreshIds(chunks.docs, ids)
    requires Foreign(chunks.docs, filesId)
    requires user.None? || user.value > 0
    requires var c := ChunkSizeOf(user, default); c <= INT_MAX && |data| < LONG_MAX && Quot(|data|, c) <= INT_MAX
    modifies chunks, files
    ensures stored.Stored? <==> stream != null
    ensures stream != null ==>
              && fresh(stream) && fresh(stream.buffer) && stream.Valid() && stream.contents == data &&
                   stream.offset == 0
              && stream.chunkSize == ChunkSizeOf(user, default) && AllThere(stream.find, data, stream.chunkSize)
  {
    hide HasChunk, ChunkOf, Pieces, FreshIds, Quot, Genuine, AllThere;
    ghost var before := chunks.docs;
    ghost var c := ChunkSizeOf(user, default);
    stored := StoreBytes(chunks, files, filesId, data, user, default, ids, works, lastError, fileWorks);
    stream := null;
    if stored.Stored? {
      StoredHolds(before, chunks.docs, data, c, filesId, ids);
      var docs, file := chunks.docs, files.docs[|files.docs| - 1];
      var find := n => FindOne(docs, filesId, n);
      StoredServesStream(docs, data, c, filesId, ids, find);
      stream := new GridFSStream(find, file.length, file.chunkSize, data);
    }
  }
}
