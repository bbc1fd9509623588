# A verified model of the MongoDB driver's core algorithms

This project models the parts of the PHP driver for MongoDB in which algorithms do the work, and proves what they
promise. The zend engine's hash tables are ordered lists of pairs, the network and the server are oracles with a
stated contract, and the hash function of the authentication is a parameter. `dafny verify dfyconfig.toml` checks
everything.

| part | files |
|---|---|
| bytes, numerals, little-endian words; C strings; the value tree | `Bytes.dfy`, `CStrings.dfy`, `Values.dfy` |
| BSON: the format, encoder, decoder, round trip, grammar and meaning, UTF-8, skipping reader | `Bson.dfy`, `MongoBuffer.dfy`, `BsonEncoder.dfy`, `BsonDecode.dfy`, `BsonDecoder.dfy`, `BsonRoundTrip.dfy`, `BsonGrammar.dfy`, `BsonMeaning.dfy`, `Utf8.dfy`, `MiniBson.dfy` |
| write commands, their batching, sending and meaning | `WriteCommand.dfy`, `WriteNames.dfy`, `WriteMeaning.dfy`, `WriteBatch.dfy`, `WriteExecute.dfy` |
| cursors, the server cursors they own, the connections that notify them | `CursorHistory.dfy`, `Cursor.dfy`, `CursorRuns.dfy`, `CommandCursor.dfy` |
| GridFS | `GridFSStream.dfy`, `GridFSFile.dfy`, `GridFSRoundTrip.dfy` |
| replica set discovery, connection lists | `Discovery.dfy`, `DiscoveryRuns.dfy`, `ConnectionManager.dfy`, `LinkedLists.dfy` |
| SCRAM-SHA-1 | `Scram.dfy` |
| connection hashes and host lists | `Identities.dfy`, `HostLists.dfy` |

The code is modelled in its own form: buffers, cursors, streams, connections and batches are classes whose methods
update fields and arrays; loops are loops. Each such method is proved against functions on values, and the
properties are lemmas about those functions or invariants that all methods keep.

## How the parts fit together

* **BSON.** `ZvalToBson` writes exactly `DocBytes` of the tree into the growing buffer; `BsonToZval` reads exactly
  what `DecodeDoc` says; `RoundTripExactly` connects the two functions. `DecodedIsDocument`, `DocumentDecodes` and
  `DecodedMeans` connect the decoder with an independent statement of the grammar and of what the bytes stand for
  (bsonspec.org, version 1.1), and `EncodedMeans` the encoder. The skipping reader is connected with the decoder by
  `DecodeIsWalk` and `WalkLocates`.
* **Writes.** `Add` keeps the chain of batches such that concatenating them gives the add sequence; `Execute` sends
  the messages of that chain in order, and each can be read by a server that decodes it; `SentMessageDecodes` says
  exactly when, through the BSON round trip, and `InsertComesBack` what an inserted document becomes. `MergedIsMerge`
  says what the merged value is reply by reply, `GlobalExactlyIfCounted` what its indexes mean.
* **Cursors.** Every operation keeps `AllValid`: positions against the documents received, ownership of the server
  cursor (`Lawful`, `Owner`), and the registry of cursors in connections. `DrainWithNext` and `DrainWithHasNext` are
  whole runs.
* **GridFS.** `StoreAndGet` and `StoreAndOpen` compose storing with both ways of reading, over a collection that holds
  other files as well.
* **Discovery.** `Turn` does what `Step` says; `Run` repeats `Step` from the seeds on. Every turn keeps `Inv`; a search
  that ends is `Closed`, which `ReachableIsListed` turns into completeness, and `EndsExactly` says when it ends.
* **Lists.** `LinkedLists` has the pointers of the lists in `mcon`. The connection manager is built on it; the
  callback lists of connections are sequences in `Cursors`, changed by the operations that `LinkedLists` implements.

## Assumptions about the outside

* The server (`Cursors.Honest`, `CursorRuns.ServedBy`): a getMore reply is about the cursor asked for, states how
  many documents came before, keeps a cursor open only together with a document, and for the run theorems serves one
  fixed list, never sends more than asked, and closes a cursor at the end of the list, together with the one document
  that a query asked for, and always after a negative request. Replies are well-formed BSON. With a server that always
  answers, the loops of `CursorRuns` run to the end.
* GridFS queries (`GridFSRoundTrips.IsAnswer`): exactly the chunks of the file, sorted by their numbers.
* The hosts (`DiscoveryRuns.Case.WellBehaved`): there are finitely many; a host keeps the name it calls itself by and
  answers under it, if at all, as under the one it was found by; seeds were connected to as far as possible, and no
  connection was checked just before.
* The clock of the connection lists does not run backwards. The hash has 20-byte digests.

## Where code and documentation or expectation part

* A regex with a NUL in its pattern or flags is accepted by the encoder and does not come back
  (`RoundTripExactly` is an equivalence for this reason).
* The first `MongoCursor::next()` returns an error report of the server as a document; only later calls and
  `rewind()` turn it into an exception (`Next`, `Rewind`).
* With a batch size not below the limit, a short batch makes the next request exceed the limit
  (`RequestWithinLimit` is an equivalence), and `next()` then hands out too many documents (`NextPassesTheLimit`).
* With a limit of 1 and a negative batch size, `hasNext()` says no at once when more than one document came
  (`FromBatch` in `Drained`).
* In an unordered insert, an index behind a reply with errors is too small, because a reply does not count the items
  that failed (`GlobalExactlyIfCounted`).
* A binary of subtype 2 that is too short to repeat its length is refused near the end of a document and accepted
  elsewhere (`ShortOldBinary`).
* `getBytes` accepts one byte more than the metadata says and drops it (`GetBytes`).
* An error reported by getlasterror during `storeBytes` throws but leaves the chunks in place (`StoreBytes`).
* A replica set whose members list each other, or one itself, under names that they do not call themselves by keeps the
  discovery loop running for ever (`EndsExactly`, `SelfListingLoops`).
* A command character that is a lower-case letter, a digit or an underscore rewrites names that the driver writes
  (`FinishedBatchDecodes` is an equivalence; `LetterLosesName`).
* A port of more than five digits, which a connection string can carry, may not fit the room for a hash (`FitsExactly`).
* A host name with a colon survives printing and parsing, since the last colon counts; one with a slash or comma does
  not (`PrintedIsParsedBack`).

## Model

| member | source | states |
|---|---|---|
| Values.IsNumericArray | contrib/php-json.c:25-56 | succeeds exactly on tables whose keys are the integers 0, 1, 2, ... in order |
| Values.SymKeyOfDec | bson.c:1386 | a decimal element name comes back as the integer key it was printed from, any other name as a string key |
| MongoBuffers.MongoBuffer.Resize | bson.c:336-350 | after a reallocation there is room for the bytes asked for, every byte written so far is kept, and the growing loop ends |
| MongoBuffers.MongoBuffer.SerializeSize | bson.c:64-74 | the four bytes at the slot become the distance to the position and no other byte changes; too large a distance throws code 3 and changes nothing |
| MongoBuffers.MongoBuffer.SerializeKey | bson.c:591-623 | a legal name is written with its terminator, with the command character rewritten; an illegal one sets its code and leaves the position |
| BsonEncoder.PrintKey | bson.c:137-178 | the digit loop that fills a 30-byte array from the right prints the decimal numeral of every integer key |
| BsonEncoder.CheckUtf8 | bson.c:1392-1410 | the scan accepts exactly the strings that AcceptedSplits and TextIsWritten describe |
| Utf8s.AcceptedSplits | bson.c:1392-1410 | a string is accepted if and only if it can be split into single bytes below 128 and lead bytes followed by as many continuation bytes as their leading one-bits announce, up to four bytes in all |
| Utf8s.TextIsWritten | bson.c:214-230 | text of any code points up to 10FFFF, encoded by the table of section 3 of RFC 3629, is accepted and written |
| BsonEncoder.CloseSlot | bson.c:64-74 | a back-patched slot holds four plus the body's length, within the limit only, and the bytes before it stay |
| BsonEncoder.SerializeCode | bson.c:418-440 | code with scope: both inner lengths and the outer one are exact although the buffer may move in between |
| BsonEncoder.SerializeValue | bson.c:180-334 | each kind of value appends the bytes of the BSON production for it, or throws the code that the first offending part calls for |
| BsonEncoder.SerializeElement | bson.c:180-334 | tag, name and value in order; the array tag is patched in afterwards when the keys turned out to count up |
| BsonEncoder.ApplyFuncArgs | bson.c:137-178 | one element per entry, nothing for an _id that was already written first |
| BsonEncoder.ZvalToBson | bson.c:74-135 | on every tree: either exactly one document is appended after what was written, with all nested lengths right, or the exception is the one of the first offence; a missing _id is generated and comes first |
| BsonDecode.DecodeIter | bson.c:870-1390 | the position after a document is within the bytes given and within the declared length, of which at least five bytes were there |
| BsonDecoder.BsonToZvalIter | bson.c:870-1390 | the pointer-moving decoder reads the same tree, ends at the same position and throws the same code as the grammar-directed one, on every sequence of bytes |
| BsonDecoder.BsonToZval | bson.c:847-868 | the same for a document that must fill its buffer |
| BsonDecoder.ReadElement | bson.c:908-1387 | one turn of the element loop, with every read checked against the end |
| BsonDecoder.ReadCode | bson.c:1174-1241 | code and code with scope read within the end; the scope's own length decides where it stops |
| BsonGrammar.DecodedIsDocument | bson.c:33-40 | success on arbitrary bytes implies a document of the BSON grammar: every length word, at this level and in each embedded document and code scope, spans exactly its bytes |
| BsonGrammar.DocumentDecodes | bson.c:870-1390 | conversely every document of the grammar, with values of any type that it knows, is decoded |
| BsonMeaning.DecodedMeans | bson.c:900-1387 | whatever bytes are decoded, at every level the array has the names of the elements, of equal names the last value at the first place, and the values that the type numbers of BSON 1.1 give to their bytes |
| BsonMeaning.AcceptedExactly | bson.c:105-334 | the encoder refuses a document exactly when a name is empty or holds a NUL, a string is not UTF-8, a UUID has not 16 bytes, or a document or scope is beyond its limit |
| BsonMeaning.RefusalCodes | bson.c:591-623 | code 1 for an empty name, 2 for one with a NUL or a dot, 12 for a string, 25 for a UUID, 3 for a size |
| BsonMeaning.EncodedMeans | bson.c:180-334 | what is written for an accepted document stands for it, each value under the type number of its kind |
| BsonMeaning.NameAsWritten | bson.c:611-620 | a name that starts with the command character is written with '$' in its place, any other as it is |
| BsonRoundTrip.AcceptedIsSound | bson.c:180-334 | every tree the encoder accepts satisfies what decoding back relies on, once its regexes are free of NUL |
| BsonRoundTrip.DocRoundTrip | bson.c:870-1390 | decoding an encoding gives the normal form of the tree, at any depth and for any configuration, also when names collide |
| BsonRoundTrip.NormIsMapped | bson.c:1386 | on trees with canonical, distinct names the normal form changes value kinds only, entry by entry |
| BsonRoundTrip.RoundTripExactly | bson.c:105-334 | an accepted canonical tree of any depth comes back if and only if no regex in it holds a NUL |
| BsonRoundTrip.PlainRoundTrip | bson.c:847-1390 | trees of values that decode to their own kind come back unchanged, so no two of them share an encoding |
| BsonRoundTrip.DecodedDocIsClean | bson.c:1148-1172 | whatever bytes are decoded, no regex in the result holds a NUL: this is why the condition of the round trip is exact |
| BsonRoundTrip.ArrayTag | bson.c:234-254 | the tag byte says array exactly for tables whose keys count up from 0 |
| MiniBson.DecodeIsWalk | mcon/mini_bson.c:295-379 | the full decoder succeeds on exactly the memory that can be walked element by element, and its table is what the walk collects |
| MiniBson.SpanAgrees | mcon/mini_bson.c:295-367 | for each type the skipper knows, the distance it skips is the size the decoder reads |
| MiniBson.NextAgrees | mcon/mini_bson.c:295-367 | stepping to the next element lands where the decoder's element ends |
| MiniBson.WalkLocates | mcon/mini_bson.c:369-379 | each position the walk visits is where the decoder reads that element |
| MiniBson.FindField | mcon/mini_bson.c:381-401 | finds the value of the first element with that name and type, and nothing exactly when there is none |
| MiniBson.FindFieldAsString | mcon/mini_bson.c:482-491 | the text found is the one the decoder puts into its table under that name |
| MiniBson.HighTypesAreNeverFound | mcon/mini_bson.c:369-401 | a type above 127, min-key among them, is never found, whatever the document |
| MiniBson.CollectStrings | mcon/connections.c:482-503 | looping over an array of strings yields exactly its elements in order |
| MiniBson.ArrayFindNextString | mcon/mini_bson.c:493-508 | one step hands out the string at the pointer and moves to the next element |
| WriteCommand.WriteHeader | api/write.c:200-223 | the OP_QUERY head for a command namespace, with four bytes reserved for the length of the whole message |
| WriteCommand.WriteStart | api/write.c:229-246 | after the start of the command the buffer is a batch of no items |
| WriteCommand.AddUpdateArgs | api/write.c:323-369 | an update item is the document {q, u, multi?, upsert?} with an exact length |
| WriteCommand.WriteAdd | api/write.c:269-300 | success adds exactly this item under the next number; overflow leaves position and bytes of the earlier items as they were; failure is exactly an item the encoder refuses |
| WriteCommand.AddWriteOptions | api/write.c:605-657 | ordered when set, and a writeConcern document, follow the items |
| WriteCommand.WriteEnd | api/write.c:414-438 | succeeds exactly when the finished message fits; then head, both nested lengths and the message length are exact |
| WriteCommand.ItemsWithinCommand | api/write.c:414-434 | the check of the item array's length can never be the one that fails first |
| WriteMeaning.AcceptedItemIsSound | api/write.c:304-398 | an item that write_add accepted can be decoded back |
| WriteMeaning.ItemAcceptedExactly | api/write.c:304-398 | an item is refused exactly when one of its documents cannot be written; a document to insert must not have a dot in a name |
| WriteMeaning.InsertComesBack | bson.c:77-101 | a document to insert is decoded with _id first, holding the document's own value or else the generated id, and then the pairs of every other name in their order; exactly when '_' is not the command character |
| WriteMeaning.CallerSeesId | bson.c:81-90 | the caller's document has the stored _id afterwards and is otherwise as it was; storing it again writes the same bytes |
| WriteNames.ComesBackExactly | bson.c:591-623 | a table of distinct, self-reading names comes back under them exactly when none of them starts with the command character |
| WriteMeaning.ItemsComeBack | api/write.c:269-300 | the item array decodes to the items in add order under 0, 1, 2, ..., each field by its name, exactly when the command character starts no number and no name that the driver writes into an item |
| WriteMeaning.FinishedBatchDecodes | api/write.c:200-438 | a finished batch decodes to {command: collection, field: items in add order, ordered?, writeConcern: {...}} if and only if no name that the driver writes starts with the command character |
| WriteMeaning.SignKeepsNames | bson.c:591-623 | with '$', ':' or any other character that is no lower-case letter, digit or underscore, that condition always holds |
| WriteMeaning.LetterLosesName | bson.c:591-623 | with an 'i' as command character it never holds for an insert |
| WriteBatch.Batch.Append | api/write.c:269-300 | an item that overflows leaves the batch as it was, apart from the raised count |
| WriteBatch.FirstIsSmallest | batch/write.c:210-236 | an item takes no more room as the first of a batch than anywhere later, so retrying in a new batch can only help |
| WriteBatch.RetrySameBytes | batch/write.c:222-236 | the second attempt, on the document that has been given its _id, meets the same errors and needs the same room |
| WriteBatch.MongoWriteBatch.MakeBatch | api/batch.c:33-54 | the new batch is last, linked from the old one and to the first; everything added before is kept in order |
| WriteBatch.MongoWriteBatch.AddToLast | batch/write.c:208-236 | both attempts together: the item is accepted exactly when a batch of its own could hold it |
| WriteBatch.MongoWriteBatch.Add | batch/write.c:116-236 | over every run of accepted adds: the chained batches concatenate to the add sequence, counts sum to the total, no batch is empty, every item is one the encoder takes, each is within the item and byte limits; the current batch takes the item exactly when neither limit is in the way, and an overflow leaves its bytes as they were |
| WriteExecute.ShiftIndexes | batch/write.c:281-304 | every index present is moved by the same amount, every other field stays |
| WriteExecute.FinishNext | api/batch.c:128-137 | finishing one batch yields its message and does not disturb the batches behind it |
| WriteExecute.Execute | batch/write.c:257-356 | messages go out in chain order, each an OP_QUERY head and a command with its batch's items, readable by the server when they were added within the limits; sending stops at a lost reply, an oversized batch or, unless ordered is false, a reply with errors, and nowhere else; the merged value is the merge of the replies received; once the whole chain is answered the object is empty, valid and can be filled again |
| WriteExecute.MergedIsMerge | batch/write.c:281-349 | in every run: error e of reply k stands behind those of all earlier replies with its fields unchanged and its index raised by what the earlier replies counted, and so does every upserted entry; n, ok and nModified are sums, nUpserted counts the upserted entries, and nothing else is in the lists |
| WriteExecute.GlobalExactlyIfCounted | batch/write.c:280-308 | in any run, ordered or not, a merged index is the position of the item among everything that was added exactly when the replies before counted every item of their batches |
| WriteExecute.HeadIsQuery | api/write.c:200-223 | read by the layout of OP_QUERY, the head is a query without flags for one reply, on the database as named and the collection with '$' for the command character |
| WriteExecute.SentMessageDecodes | api/batch.c:147-176 | a server that decodes a sent message finds its length, its head, and a command with the batch's items in add order, if and only if the command character starts none of the command's own names |
| WriteExecute.ErrorIndexIsGlobal | batch/write.c:280-308 | ordered inserts: a merged error index is the position of the failing item among everything that was added |
| WriteExecute.CompleteRunCountsAll | batch/write.c:341-375 | a run without errors counts every item that was added |
| WriteExecute.GetBatchInfo | batch/write.c:456-487 | one entry per batch in chain order with its item count and size; the counts sum to the total |
| CursorHistory.OpenedIsClosed | cursor_shared.c:597-636 | in a lawful history without an open cursor at the end, every id the server opened was later killed, exhausted or lost |
| CursorHistory.NoDoubleKill | cursor_shared.c:47-67 | between two kills of one id the server must have opened it again |
| CursorHistory.SentToOpener | cursor_shared.c:328-370 | each getMore and each kill goes to the connection whose reply opened the cursor |
| Cursors.RemovedFromUnique | mcon/manager.c:502-524 | dropping the first entry of a cursor from a list without repeats drops the cursor and nothing else |
| LinkedLists.LinkedList.Append | mcon/manager.c:560-581 | walking to the end and linking a new entry adds its data as the last of the list and touches no other |
| LinkedLists.LinkedList.RemoveFirst | mcon/manager.c:704-734 | relinking the entry before it, or the head, takes out the first matching entry and no other, and reports whether there was one |
| LinkedLists.LinkedList.Find | mcon/manager.c:623-633 | finds the data of a matching entry exactly when there is one |
| LinkedLists.DroppedFromUnique | mcon/manager.c:704-734 | where at most one entry matches, none is left afterwards and all others are |
| Cursors.MongoConnection.Deregister | mcon/manager.c:502-524 | the cursor's first entry goes, all others stay in order |
| Cursors.Destroy | mcon/connections.c:100-145 | afterwards every cursor that held the connection is dead without connection or id, every other one is untouched, and the registry still holds |
| Cursors.MongoCursor.MarkDead | cursor_shared.c:203-212 | an open server cursor counts as lost with its connection |
| Cursors.MongoCursor.Kill | cursor_shared.c:47-67 | the kill goes to the connection that is set, once, and the id is forgotten |
| Cursors.MongoCursor.Reset | cursor_shared.c:597-624 | an open server cursor is killed; the cursor is as new and keeps its connection |
| Cursors.MongoCursor.Fail | cursor_shared.c:628-636 | the connection goes, and every cursor on it is told |
| Cursors.MongoCursor.HandleError | cursor_shared.c:268-326 | an exception exactly for an error report or an error flag; the connection is given up exactly for the codes of a server that is not the primary |
| Cursors.MongoCursor.GetReply | cursor_shared.c:127-262 | header fields and documents of a reply are taken over; the server's view of the id is recorded |
| Cursors.MongoCursor.GetMore | cursor_shared.c:328-370 | a successful getMore appends exactly the reply's documents to what was received; a failed one leaves a dead cursor |
| Cursors.MongoCursor.Join | mcon/manager.c:583-594 | a cursor with its new connection is registered there exactly once and nowhere else |
| Cursors.MongoCursor.DoQuery | cursor.c:785-887 | the registration moves from the old connection to the new one before anything is sent; after success the first batch is in place |
| Cursors.MongoCursor.HasNext | cursor.c:233-317 | true means that a document not yet handed out has arrived; false means that the server cursor is closed and everything was handed out or the limit is reached; the position never moves |
| Cursors.MongoCursor.Advance | cursor.c:363-398 | the next document in the order received is made current, without loss or repeat over getMore, prefetch or the held-back first step |
| Cursors.MongoCursor.Next | cursor.c:959-983 | hands out the documents received one by one in order; after hasNext said true it does return one, unless that document reports an error |
| Cursors.MongoCursor.Rewind | cursor.c:1001-1021 | a fresh query whose first document is current; an error report as first document, or an error flag, throws |
| Cursors.MongoCursor.Free | cursor_shared.c:69-113 | no list knows the cursor any more and nothing it opened is open |
| CursorRuns.RequestWithinLimit | cursor_shared.c:433-452 | a request at some position stays within the limit exactly when the batch size is below the limit or nothing has been read |
| CursorRuns.RequestSizes | cursor_shared.c:433-452 | for every limit and batch size: a negative limit, else a negative batch size, as it is; without a limit the batch size; otherwise what the limit leaves or the smaller batch size; the whole limit where the batch size is not below it |
| CursorRuns.NextPassesTheLimit | cursor.c:363-390 | with limit and batch size 2 and a first batch of one document, next alone hands out three documents |
| CursorRuns.DrainWithNext | cursor.c:363-390 | for every limit and batch size, what iterating with next alone delivers: min(limit, total) documents in order, where the batch size is not below the limit only if the server fills the first batch; one batch of that size for a negative limit or batch size; one document for a batch size of 1 where the server closes the cursor after it |
| CursorRuns.DrainWithHasNext | cursor.c:254-317 | for every limit and batch size, what a loop guarded by hasNext delivers: min(limit, total) documents in any case; of a single batch as much as the limit lets through, but nothing when the limit is 1 and more came; it receives at most one more than the limit |
| CommandCursors.Attach | command_cursor.c:412-468 | a cursor made from a document is registered with its connection and owns the id it was given |
| CommandCursors.CommandCursor.Rewind | command_cursor.c:234-280 | the first document is current, fetched from the server when the first batch is empty; a second iteration throws, and otherwise only a refused request or an error report does |
| CommandCursors.CommandCursor.Next | command_cursor.c:197-232 | one position further through the first batch and then the replies, unless a request is refused or the document there is an error report; at the end the server cursor is closed; other cursors stay valid |
| CommandCursors.Iterate | command_cursor.c:153-232 | a loop over a command cursor sees the first batch and then every reply in order, with keys counting 0, 1, 2, ...; with a server that refuses nothing only an error report ends it early; other cursors stay valid throughout |
| GridFSStreams.GridFSStream.ReadChunk | gridfs/gridfs_stream.c:195-248 | the buffer holds the chunk asked for, and its position agrees with the file's modulo the chunk size |
| GridFSStreams.GridFSStream.Read | gridfs/gridfs_stream.c:252-285 | a read returns the bytes of the file at the offset and advances by their number, which is exactly what is asked for up to the end of its chunk and of the next one when that is full, so all of a chunk's length well before the end; with all chunks stored it fails exactly at the end of a file whose last chunk is full |
| GridFSStreams.ReadAll | gridfs/gridfs_stream.c:252-285 | reading on in pieces of any size until nothing more comes returns the rest of the file |
| GridFSStreams.GridFSStream.Seek | gridfs/gridfs_stream.c:289-324 | succeeds exactly on positions within the file, with size_t arithmetic; a refused seek changes nothing |
| GridFSFiles.InsertChunks | gridfs/gridfs.c:467-487 | chunks go in numbered from 0 until one insert fails |
| GridFSFiles.PiecesAreTheChunks | gridfs/gridfs.c:467-487 | there are ceil(length / chunk size) chunks and all but the last are full |
| GridFSFiles.CleanupStaleChunks | gridfs/gridfs.c:367-404 | removes exactly the chunks inserted so far |
| GridFSFiles.StoreBytes | gridfs/gridfs.c:408-545 | all chunks and the file document, or, after a failed insert, nothing at all; an error found by getlasterror throws and leaves the chunks behind |
| GridFSFiles.ApplyToCursor | gridfs/gridfs_file.c:301-377 | copies the data of all chunk documents to consecutive places when they are data and fit, and otherwise reports the first offence |
| GridFSFiles.GetBytes | gridfs/gridfs_file.c:193-288 | the first `length` bytes of the chunks put together, padded with zeros; one byte too many is tolerated, more is an error |
| GridFSRoundTrips.AnswerIsTheChunks | gridfs/gridfs_file.c:212-247 | in a collection that holds the stored chunks and those of other files in any order, the query by files_id sorted by n has one answer: the chunks in order of their numbers |
| GridFSRoundTrips.StoredComesBack | gridfs/gridfs_file.c:193-377 | that answer, put together, is the original; it is empty exactly for the empty string |
| GridFSRoundTrips.StoreAndGet | gridfs/gridfs.c:408-545 | storeBytes, the query and getBytes one after the other return what was stored, except that the empty string is an error |
| GridFSRoundTrips.StoredServesStream | gridfs/gridfs_stream.c:195-220 | looking chunks up by files_id and n in such a collection finds the right chunk or, beyond the file, nothing: all the stream relies on |
| GridFSRoundTrips.StoreAndOpen | gridfs/gridfs_stream.c:139-190 | a stream opened on a file that was just stored reads that file's bytes |
| Discovery.ServersContains | mcon/manager.c:152-175 | found exactly when an equal definition is in the list |
| Discovery.IsMaster | mcon/connections.c:279-515 | result code, new name, set name and host list for each answer a host can give |
| Discovery.KeysAreHashes | mcon/utils.c:52-97 | two readable definitions have the same hash exactly when they have the same key |
| Discovery.AddHost | mcon/manager.c:236-299 | a host gets a connection that passes the second check or none at all, and a place on the list unless it has one |
| Discovery.Turn | mcon/manager.c:197-311 | one turn of the loop takes the list, the set name and the connections where Step says |
| DiscoveryRuns.HostsListed | mcon/manager.c:236-299 | every host that a member lists is on the list afterwards, once, with a connection if one can be had |
| DiscoveryRuns.ShownStays | mcon/connections.c:422-436 | a turn that renames a server in place keeps every listed host on the list, under the one name or the other |
| DiscoveryRuns.TurnKeeps | mcon/manager.c:197-311 | every turn keeps what completeness needs: who could be asked is done or waits for a turn with a connection |
| DiscoveryRuns.TurnShrinks | mcon/manager.c:197-311 | every turn lowers a measure of what is left to do, although the list grows, when the renamed hosts on the way can be ranked |
| DiscoveryRuns.NeverEnds | mcon/manager.c:197-311 | with a ring of members on its way, each under another name than the one it is listed by and each listing another, the search goes on after any number of turns |
| DiscoveryRuns.EndsExactly | mcon/manager.c:197-311 | from the seeds on, the search ends if and only if there is no such ring on its way |
| DiscoveryRuns.SelfListingLoops | mcon/manager.c:197-311 | a listed, renamed member that lists itself is such a ring |
| DiscoveryRuns.TwinsCanEnd | mcon/manager.c:197-207 | a renamed seed that is given twice can stop a ring: why EndsExactly asks for seeds without such twins |
| DiscoveryRuns.AtMostNodes | mcon/manager.c:288-293 | where no listed host goes by another name, no more servers are added than there are hosts anybody lists |
| DiscoveryRuns.DiscoverTopology | mcon/manager.c:183-318 | ends where there is no such ring, with a list that shows all that working members list, under the one name or the other; seeds keep their places even when renamed, a connection that passed the check belongs to a member under its own name, members under their own names have their connections as ConnectedStays says, and 0 is returned exactly as SupportedExactly says |
| DiscoveryRuns.ReachableIsListed | mcon/manager.c:183-318 | every host at the end of a route from a seed over members that can be asked is on the final list |
| DiscoveryRuns.ConnectedStays | mcon/manager.c:197-311 | every turn keeps: a member under its own name keeps its connection, or has one as soon as it is listed if one can be had; a seed of that kind has been asked after its turn, and a seed that is no member and that nobody lists has lost its connection |
| DiscoveryRuns.SupportedExactly | mcon/manager.c:207-212 | the search reports failure exactly when in some turn the server asked was not supported, or a host that was connected to for the first time was out of range |
| ConnectionManagers.ConnectionManager.DropConnection | mcon/manager.c:737-740 | the item of that connection goes with it and every other item keeps its own |
| ConnectionManagers.WithoutFromUnique | mcon/manager.c:704-740 | in a list with unique hashes no item of that hash remains, and the hashes stay unique |
| ConnectionManagers.ConnectionManager.LiftExpired | mcon/manager.c:47-68 | a blacklisted host blocks the call until its interval has passed; then exactly its entry is lifted |
| ConnectionManagers.ConnectionManager.BlockedExactly | mcon/manager.c:47-68 | a host is blocked exactly while the interval has not passed since some attempt to reach it failed |
| ConnectionManagers.ConnectionManager.UseExisting | mcon/manager.c:78-91 | a connection is pinged when its interval has passed; one that does not answer is destroyed together with its own item |
| ConnectionManagers.ConnectionManager.TryNew | mcon/manager.c:94-138 | an attempt leaves a registered connection whose first ping counts as its last one, or a blacklist entry, or neither |
| ConnectionManagers.ConnectionManager.GetConnectionSingle | mcon/manager.c:39-142 | a known host's connection is handed out, unless it is due for a ping that fails, which destroys it; over every run: hashes stay unique in both lists, the lists stay disjoint, items hold live connections of their hash, other hosts' connections are untouched, and between a failed attempt and the next one to the same host the interval passes |
| Scram.PrepKey | contrib/crypto.c:57-69 | the padded inner key of RFC 2104 for a key of any length, computed in place |
| Scram.HmacOf | contrib/crypto.c:79-103 | equals HMAC of section 2 of RFC 2104 for every key and text, although the inner digest is overwritten by the outer one |
| Scram.Iterate | contrib/crypto.c:175-193 | the in-place iteration accumulates U1 XOR ... XOR Ui |
| Scram.Pbkdf2 | contrib/crypto.c:115-213 | equals Hi of section 2.2 of RFC 5802 for every positive iteration count, and refuses the others and over-long salts without touching the result |
| Scram.EachIterationCounts | contrib/crypto.c:181-193 | every iteration adds exactly its own U to the result, and taking it off again gives what there was before |
| Scram.KeysAreFitted | contrib/crypto.c:57-69 | a key of more than 64 bytes stands for its hash, and a shorter one for itself with zeros behind it |
| Scram.MakeClientProof | io_stream.c:674-721 | ClientProof and ServerSignature of section 3 of RFC 5802 |
| Scram.ProofHashesToStoredKey | io_stream.c:707-709 | taking the client signature off the proof gives a key that hashes to StoredKey, and no other proof gives that key |
| Scram.EscapeUsername | io_stream.c:759-768 | the saslname of a user name |
| Scram.SaslNameIsReadBack | io_stream.c:759-768 | reading a saslname by section 5.1 of RFC 5802 gives the user name, for every user name |
| Identities.CreateHash | mcon/utils.c:52-98 | the printed hash, within the room allocated for it |
| Identities.FitsExactly | mcon/utils.c:56-87 | the hash fits the room that is allocated for it exactly when port and process id have at most 15 characters together |
| Identities.TcpPortsFit | mcon/utils.c:56-87 | it does for every port of up to five digits and every process id |
| Identities.LongPortDoesNotFit | mcon/utils.c:56-87 | it does not for a port with ten digits and a process id with six |
| Identities.SplitHash | mcon/utils.c:101-163 | the parts between the separators, found by moving pointers |
| Identities.SplitInvertsHash | mcon/utils.c:52-162 | splitting gives back what was printed exactly when no part holds a separator and none looks like a placeholder |
| Identities.HashesAreInjective | mcon/utils.c:52-97 | definitions without separators and placeholders have the same hash only when they are the same |
| Identities.ShortcutsAgree | mcon/utils.c:165-182 | the process id is always read back; host and port exactly when the host has no semicolon |
| HostLists.ToString | mongoclient.c:656-687 | the servers as host:port, separated by commas |
| HostLists.ScanHosts | mcon/parse.c:97-136 | the scan splits at commas up to the first slash; the last colon of an entry starts its port |
| HostLists.ParseServerSpec | mcon/parse.c:58-216 | scheme and credentials are skipped and kept, then TCP hosts or one socket path are read, then the database name |
| HostLists.PrintedIsParsedBack | mcon/parse.c:97-138 | parsing what __toString printed gives the same servers exactly when no host contains a comma or a slash |
| HostLists.UriIsTakenApart | mcon/parse.c:58-216 | a connection string with a login gives back user, password, hosts and database, with admin as database where none is named |
| HostLists.HostAlone | mcon/parse.c:233-250 | a host alone is asked at port 27017, without login or database |
| HostLists.SocketIsTakenApart | mcon/parse.c:137-160 | a socket path whose name has a dot is the server, and what follows it the database |

## Left out

* BSON: the key LONG_MIN (its negation overflows), an uninitialised MongoId, subtypes outside 0..255, resource-typed
  values, and splitting a date into seconds and microseconds. Doubles are their eight raw bytes. The model has 64-bit
  longs with native_long on; of several exceptions in one call only the first code is kept.
* BSON: the int64 flag that command cursors pass to the decoder, `strlen` running past the end of memory, and 32-bit
  overflow of buffer totals.
* The skipping reader on regexes (skipped as one C string) and on code with scope (the process exits), and
  `bson_find_field_as_double`; `FindField` asks for documents it can step over.
* The packet builders of `mcon/mini_bson.c` and the growable string of `mcon/str.c`: the same shape as the encoder's
  buffer, with constant documents.
* `MongoWriteBatch::add`: looking up q, u, multi, upsert and limit in the item, and batches after a failed add. After
  an execute that stopped before the last batch the object keeps a pointer to freed memory and is not used again in
  the model. Executing without an item is an error (code 16) and changes nothing.
* Merging of reply fields other than n, ok, nModified, writeErrors and upserted, and the names that the sums get in the
  returned array.
* Cursors: tailable cursors, replies that keep a cursor open without a document, a getMore too large for the wire, a
  connection that belongs to another process, running a constructor twice, error codes that are not integers, and
  `next()` on a command cursor whose connection has been lost. A failed connection is taken to be in the manager's
  list, as the invariant of `ConnectionManagers` has it.
* Command cursors that run their command in `rewind()`; the ones made from a document are modelled.
* GridFS: files stored with a user-supplied length, chunk documents without data or error report (the copying loop
  does not end on them), a stored chunkSize of 0 or less, computing md5, and storeFile's file access.
- GridFSStreams.GridFSStream.Read: a read at the very end of a file whose size is a multiple of the chunk size fails instead of returning nothing; the contract says so.
* Discovery: the fixed capacity of 64 servers, the addition of failed hosts to the blacklist during a run, and the
  scan of the ismaster reply for flags, tags and sizes.
- DiscoveryRuns.EndsExactly: a renamed seed that is given twice is left out of the equivalence, because it can stop a ring that is on the way; that the search ends without a ring is proved with such seeds as well (RunEnds).
* `Cursors.MongoConnection` keeps its callbacks in a sequence, so that aliasing of list entries shows in `LinkedLists`
  only.
* Selection of a server by read preference, authentication other than SCRAM-SHA-1, base64, the md5 of passwords, the
  generation and comparison of nonces, and key derivation with a count of 0 or less inside the proof (its result is
  then uninitialised memory).
* The options of a connection string; an empty host list; `atoi` beyond the range of int.
* Sockets, SSL, timeouts, logging, collection and database command wrappers, write-concern defaults and wire-version
  comparison: each is settled by reading one branch.
* The text of exceptions and their classes; only codes are kept.
