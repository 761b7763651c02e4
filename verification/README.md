# Verified model of the c-icap core

c-icap is a server for the Internet Content Adaptation Protocol (RFC 3507). This project models the parts of it
whose correctness depends on long runs rather than on single calls, and proves what they promise: the chunk
decoder and the response sender, the status lines of a request, header lists and the Encapsulated header, the
search for the end of a header, the time-limited cache, the hash index of lookup tables, buffer pools, vectors and
flat arrays, the two byte stores of bodies, MD5, and the connection queue with its workers.

Code that updates objects is modelled by classes and in-place methods, each proved against a pure specification;
the main results are lemmas and methods about whole runs of those. A linked structure of the C code is a sequence
of numbered records, an address is an index, and NULL is a number outside of the records. What the operating
system, the network, malloc or a service may do is a parameter or an arbitrary choice, so every result holds for
all of it.

`dafny verify dfyconfig.toml` checks the whole project.

## Files

- `Text.dfy`, `Bytes.dfy`: C strings, numerals and bytes.
- `ChunkCodec.dfy`, `ChunkReader.dfy`, `BodyReceiver.dfy`: the chunk decoder as a function and in place; the round trip.
- `ClientBody.dfy`, `Responder.dfy`: the client's body on its way to the service; the sender of a response and the two chunk encoders.
- `Preview.dfy`, `Protocol.dfy`: the preview of a body and the answers of a request.
- `HeaderText.dfy`, `HeaderPacking.dfy`, `HeaderList.dfy`: header lists, packing and unpacking.
- `Encapsulated.dfy`, `HeaderEnd.dfy`: the Encapsulated header and the end of a header.
- `LocalCache.dfy`, `HashIndex.dfy`: the cache and the hash index.
- `BufferPools.dfy`, `FlatArray.dfy`, `Vector.dfy`: memory.
- `RingBuffer.dfy`, `SimpleFile.dfy`: byte stores.
- `MD5.dfy`, `MD5Stream.dfy`: the digest of RFC 1321 and its streaming form.
- `MachineWords.dfy`, `MD5Vectors.dfy`: words against machine bytes, and test vectors of RFC 1321.
- `ConnectionQueue.dfy`, `WorkerPool.dfy`: the queue of connections and the steps of listener and workers.

## Model

| member | source | states |
|---|---|---|
| `Text.StrnStr` | util.c:28-41 | finds the first occurrence of a pattern inside the first slen bytes, and -1 exactly when there is none (or the pattern is empty) |
| `Text.StrtolAt` | request_common.c:569-576 | strtol reads back, anywhere in memory, the number printf wrote in base 10 or 16 and stops right behind it |
| `Text.DigitsAre` | request.c:834-836 | the digits of printf are 0123456789abcdef, and strtol gives them and 0123456789ABCDEF their values |
| `Text.NumeralValue` | request.c:834-836 | a printed number is a text of those digits without a leading zero whose value by position is the number |
| `Text.OneNumeral` | request_common.c:569-576 | and it is the only such text |
| `ChunkCodec.ChunkTexts` | request.c:822-840 | the wire text of chunks: "a", CR LF, ten bytes, CR LF |
| `ChunkCodec.EndTexts` | request.c:781-857 | the wire texts of the three ends of a body |
| `ChunkCodec.RoundTrip` | request_common.c:538-695 | for every chunk-encoded body, every way the network cuts it and anything behind it in the buffer: the decoder never fails, hands over a prefix of the data at all times, and at the end exactly the data, the end flag and the 206 offset, leaving exactly the bytes behind the terminator; with enough productive reads it does reach the end |
| `ChunkCodec.ParseTracks` | request_common.c:538-666 | one whole call of the decoder, from any position inside an encoded body, hands over data at its place in the body and moves to a later position of the same body, or waits for more, or reports the end only behind the last chunk |
| `ChunkCodec.ParseDataTracks` | request_common.c:621-663 | the same for a call that starts inside a chunk: never more than the chunk, its CRLF never handed over |
| `ChunkCodec.SizeLine` | request_common.c:557-620 | a size line in front of a chunk is read with the exact chunk size once it has arrived, and not read before |
| `ChunkCodec.ZeroChunk` | request_common.c:580-622 | the last chunk, plain or with either extension, is accepted exactly when all of it has arrived, and sets the end flag and the offset as it was written |
| `ChunkCodec.LaxTerminator` | request_common.c:582-587 | the check of the CRLF behind a zero chunk passes exactly when at least one of its two bytes is right, so it is weaker than section 4.1 of RFC 7230 |
| `ChunkCodec.BadLine` | request_common.c:570-576 | a size line that does not start like a number is an error |
| `ChunkCodec.ExtraCharacters` | request_common.c:612-616 | a size with other characters than blanks behind it is an error |
| `ChunkCodec.LongLine` | request_common.c:557-563 | a full buffer without the end of a size line is an error |
| `ChunkReader.Reader.ParseChunkData` | request_common.c:538-666 | the in-place decoder on the read buffer, with its loops and its window, does exactly what the pure decoder does on the unread bytes |
| `ChunkReader.Reader.ReadDefinition` | request_common.c:557-620 | the size line half of the loop, in place, equals its pure form in every outcome |
| `ChunkReader.Reader.ReadZero` | request_common.c:581-616 | the zero chunk, in place, equals its pure form: waiting, failing or ending with the same flags |
| `ChunkReader.Reader.TakeChunkData` | request_common.c:627-660 | the data half of the loop, in place, equals its pure form; the pending range is exactly the data handed over |
| `ChunkReader.Reader.NetDataRead` | request_common.c:668-695 | unread bytes move to the front of the buffer unchanged and new bytes are appended behind them, never beyond the buffer |
| `BodyReceiver.ReceiveBody` | request_common.c:538-695 | the round trip in place: decoder and network reads in a loop on the read buffer never fail on an encoded body, hand over a prefix of its data and at the end all of it, with end flag, 206 offset and the bytes behind, and come to the end when the network answers often enough |
| `ClientBody.ParsedKept` | request.c:1047-1058 | what a call of the decoder hands over is the next part of the client's body; it never fails on one, and asks for more only when more is to come and there is room |
| `ClientBody.ReadingKept` | request.c:1014-1017 | reading from the network keeps the place in the client's body |
| `ClientBody.TakingKept` | request.c:1102-1108 | what the service takes is taken from the front of what is held, without loss or repetition |
| `ResponseSender.FrameChunk` | request.c:822-840 | framing in place around the data turns n bytes of wbuf into exactly their chunk encoding, inside the buffer |
| `ResponseSender.PrepareBodyChunk` | client.c:511-539 | the client's encoder produces the same encoding as the server's, and its end, empty and error answers produce none |
| `ResponseSender.Responder.SentIsPrefix` | request.c:785-949 | SAFETY: in every state between steps the bytes sent are a prefix of header, encapsulated headers, chunks and last chunk, the chunks hold a prefix of what the service produces, and at the end both are all of it |
| `ResponseSender.Responder.SendCurrentBlock` | request.c:785-810 | a partial write of any length moves bytes from the unsent block to the sent ones without loss, repetition or reordering |
| `ResponseSender.Responder.UpdateSendStatus` | request.c:867-949 | choosing the next block keeps bytes sent plus block equal to what the new status calls for, and never goes back |
| `ResponseSender.Responder.FormatBodyChunk` | request.c:813-857 | data in wbuf becomes one more chunk of the body, the end mark becomes the last chunk, and both keep the invariant of the sender |
| `ResponseSender.Responder.ModuleIo` | request.c:1055-1124 | any number of rounds with any service keep wbuf in front of what the service still holds, never refilling it while a block is unsent, and keep the client's body in order; a service that takes what it is offered is given all that has arrived |
| `ResponseSender.Responder.GetSendBody` | request.c:982-1170 | for every schedule of socket events, every service and the client's real decoder, whether it succeeds or fails: only a prefix of the response to what the service produces is ever sent, nothing while the data are locked, data unlocked before the call are answered exactly when the exchange comes to choosing a block, and of the client's body nothing is lost, repeated or out of order; success means the body has ended. PROGRESS: with a service that takes what it is offered it succeeds, the service having all of the body, if no wait fails up to the one that brings its last byte, and no wait behind that one is used |
| `ResponseSender.Responder.SendRemainingResponse` | request.c:1174-1237 | COMPLETENESS and PROGRESS: also a failed run has sent only a prefix of the response to the service's output; success without a stalled service means that every byte of the response has been sent and its body is the service's whole output; and a service that neither fails nor stalls and enough waits in which the socket accepts something do give success |
| `ResponseSender.Deliver` | request.c:982-1237 | END TO END: a client's body goes through get_send_body to the service and the service's output through both sending functions over any schedule; the service is given the body in order and all of it but what is still held, and the client's decoder, however the network cuts what was sent, never fails, hands over a prefix of the output and at the end all of it, with the 206 offset; a condition on the service and the waits alone makes all of it happen |
| `LocalCache.Cache.constructor` | cache.c:136-216 | all entries are free, each once in the age queue, and all chains are empty; the invariant of the theorems holds if and only if there are two entries or more |
| `LocalCache.Cache.Search` | cache.c:239-276 | after any run, a hit carries the value of the key's latest successful update with an age of at most ttl, and a key whose latest successful update is younger than ttl always hits |
| `LocalCache.Cache.Update` | cache.c:278-385 | succeeds exactly when the oldest entry has expired and memory is there; every outcome keeps the same entries in the age queue once each in time order, and every keyed entry on exactly the chain of its hash, newest first |
| `LocalCache.Cache.UnlinkFirst` | cache.c:318-329 | the oldest entry leaves exactly the chain that led to it |
| `LocalCache.EvictedGood` | cache.c:308-333 | unlinking and clearing the oldest entry gives the lists of the log without its oldest update |
| `LocalCache.StoredGood` | cache.c:369-381 | filling the freed entry and moving it to the end of the queue gives the lists of the log with one more update |
| `LocalCache.OneEntryLost` | cache.c:371-375 | with a single entry the first success is stored and on its chain, but leaves the age queue without a head, so the theorems need two |
| `Hashing.HashCompute` | hash.c:25-43 | the hash is the 64-bit multiply-by-33 hash with zero replaced by one, masked bit by bit, and always inside a table of size + 1 slots |
| `Hashing.HashIsSum` | hash.c:25-40 | before the mask the hash of n bytes is 5381 * 33^n and the sum of byte i times 33^(n-1-i), modulo 2^64 |
| `Hashing.AndMask` | hash.c:42 | for a table size 2^k - 1 the mask is the remainder modulo 2^k, so it takes the low bits of the hash and no other |
| `Hashing.TableSize` | hash.c:56-62 | the table size is the least mask of ones from 63 on that covers the wanted size, up to the limit |
| `LookupTable.HashTable.Search` | hash.c:93-107 | the index returns the last row with the key among those it has an entry for, or misses exactly when there is none |
| `LookupTable.HashTable.Add` | hash.c:109-132 | adding a row keeps every chain equal to the indexed rows of its hash, newest first; without memory for an entry the row is left out and NULL returned |
| `LookupTable.HashTableOpen` | lookup_file_table.c:337-361 | every row is added in order whatever the answers, so the index has exactly the rows there was memory for; no table exactly when there is no memory for the buckets |
| `LookupTable.FileTableSearch` | lookup_file_table.c:292-312 | the linear search returns the first row with the key |
| `LookupTable.IndexAgreesIff` | lookup_file_table.c:292-392 | index and linear search agree on every key if and only if the rows that are in the index are exactly those that come first with their key |
| `LookupTable.FullIndexAgreesIff` | lookup_file_table.c:337-361 | with memory for every row, index and linear search agree on every key if and only if no key is loaded twice |
| `LookupTable.LostRow` | lookup_file_table.c:354-358 | a row whose ci_hash_add failed is found by the linear search and, with different keys, missed by the index |
| `BufferPools.ClassIsLeast` | mem.c:187-201 | the class of a size is the least 64 * 2^p not below it and the item size of the pool that serves it |
| `BufferPools.Buffers.PoolAlloc` | mem.c:925-959 | a pool hands out a block nobody owns, large enough for its class, and touches no other block |
| `BufferPools.Buffers.Alloc` | mem.c:215-249 | a new buffer is no live one, has room for the class of its recorded size, and every other block is untouched; NULL exactly when malloc refuses a size beyond the classes |
| `BufferPools.Buffers.Free` | mem.c:342-369 | the block goes to the front of the free list of its recorded size, or back to malloc, and no block is ever on two lists or both live and free |
| `BufferPools.Buffers.Realloc` | mem.c:299-335 | keeps every byte both sizes cover and every other live buffer; the books stay right if and only if a block that malloc returned is not shrunk into the range of the pools; NULL exactly when a larger buffer is beyond the pools and malloc refuses, and the same buffer exactly when its class is large enough |
| `BufferPools.ShrunkIsMisplaced` | mem.c:323-369 | freeing such a shrunk block puts a block without pool header on a free list |
| `RingBuffer.Ring.Write` | body.c:1239-1257 | stores exactly the free space, except that on an empty ring it stops at the end of the array; the bytes follow the stored ones |
| `RingBuffer.Ring.Read` | body.c:1260-1278 | returns exactly min(size, stored) bytes, the oldest first, and leaves the others |
| `RingBuffer.Run` | body.c:1239-1278 | over every interleaving of writes and reads, bytes given plus bytes stored are the bytes taken, in order |
| `SimpleFile.BodyFile.Write` | body.c:830-890 | appends exactly the bytes it reports and flags the end with the last of them; the file stays in order if and only if the write does not wrap without storing; the answer is the least of the block, the free space and what the operating system transfers |
| `SimpleFile.BodyFile.Read` | body.c:894-943 | takes the oldest stored bytes and leaves the others; CI_EOF exactly at the flagged end with nothing left; the answer is the least of what is asked for, what lies in one piece and what the operating system gives |
| `SimpleFile.WriteAppends` | body.c:830-890 | a write appends exactly the bytes it reports to the stored ones, unless it wraps without storing |
| `SimpleFile.ReadTakes` | body.c:894-943 | a read returns the oldest stored bytes and leaves the others, and says CI_EOF exactly when the end was flagged and nothing is left |
| `SimpleFile.WithinLimit` | body.c:845-870 | bytes in minus bytes out is the stored length, and never more than the limit |
| `SimpleFile.Run` | body.c:830-943 | over every run of writes and reads on the object, up to the first empty wrap, bytes given plus bytes stored are the bytes taken, in order; the counters and the limit hold |
| `SimpleFile.EmptyWrapRereads` | body.c:857-863 | the condition is exact: after every empty wrap two reads return more bytes than were stored |
| `MD5Transform.Transform` | md5.c:168-249 | the unrolled sixty-four steps with their rewritten round functions equal the compression function of section 3.4 of RFC 1321 |
| `MD5Transform.F1IsF` | md5.c:152-153 | the rewritten first round function is F of RFC 1321 on every word |
| `MD5Transform.F2IsG` | md5.c:154 | the second round function, the first with its arguments turned, is G of RFC 1321 on every word |
| `MD5Stream.Context.constructor` | md5.c:44-53 | the chaining value of section 3.3 of RFC 1321, a bit count of zero and no message |
| `MD5Stream.BitCount` | md5.c:63-68 | the two-word count with its carry is eight times the length modulo 2^64 |
| `MD5Stream.Context.Update` | md5.c:59-101 | the context stands for the message so far followed by the new piece, however it meets the block boundaries, its words loaded in the byte order of the build |
| `MD5Stream.Context.Final` | md5.c:107-148 | the digest is what a build of this byte order computes of the whole message, and the context is wiped |
| `MD5Stream.DigestOf` | md5.c:44-148 | STREAMING: for every message, every way of cutting it into calls and either byte order, the result is what the build computes of the whole message; where the low byte is stored first that is the digest of RFC 1321 |
| `MD5Stream.Context.ByteReverse` | md5.c:22-38 | in both kinds of build the bytes stay as they are: compiled to nothing, or storing as a word what it read low byte first |
| `MD5Stream.WhatIsComputed` | md5.c:22-148 | a little-endian build computes the digest of RFC 1321; a big-endian build compresses the words of the RFC if and only if message and padding are symmetric in every group of four bytes, and its digest is then that of the RFC with each group turned round |
| `MD5Stream.EmptyDiffers` | md5.c:22-23 | already the padding of the empty message is read as the word 0x80 by one kind of build and as 0x80000000 by the other |
| `MachineWords.MixIsMachine` | md5.c:152-157 | the round functions, defined bit by bit on numbers, are those of a machine's bitwise operators |
| `MD5Vectors.DigestOfEmpty` | md5.c:44-148 | the digest of the empty message is that of appendix A.5 of RFC 1321 |
| `MD5Vectors.DigestOfLetters` | md5.c:44-148 | the digest of the letters a to z is that of appendix A.5 of RFC 1321 |
| `HeaderList.Headers.CheckSpace` | header.c:165-203 | room for the new headers is found or made exactly up to 2048 index entries and as far as memory goes, and afterwards everything fits |
| `HeaderList.RoomFor2048` | header.c:165-183 | with memory there is room for more headers exactly up to 2048 |
| `HeaderList.Headers.Terminate` | header.c:219-249 | restores the end of the list, and does nothing to a list that is in order |
| `HeaderList.Headers.Add` | header.c:251-284 | the buffer becomes that of the lines with one more line, the index leads to every line, and the result is the position of the new one |
| `HeaderList.Headers.AddHeaders` | header.c:287-312 | the lines of the source follow the lines of the list, text and index; this fails if and only if the source is empty and the last line is empty or ends in CR or LF |
| `HeaderList.Headers.Find` | header.c:348-355 | the loop finds the number of the first line with the name, compared without case, although it looks at bytes beyond the line and beyond the last one |
| `HeaderList.Headers.Search` | header.c:336-372 | the position of the first line with the name, and nothing for the empty name |
| `HeaderList.Headers.Remove` | header.c:433-487 | takes out exactly the first line with the name and keeps the others in order, text and index, also when it was the last or the only one |
| `HeaderList.Headers.Pack` | header.c:527-558 | same lines, same index, same length, and every line now ends in CR LF |
| `HeaderList.Headers.PackToBuffer` | header.c:630-662 | exactly the bytes packing would produce, or nothing when the room is too small |
| `HeaderList.Headers.Unpack` | header.c:561-628 | from the packed text of good lines, folded ones included, the lines and their index; the bad-request answer exactly when the text is too short or its end is no line end |
| `HeaderList.PackAndUnpack` | header.c:527-628 | packing and unpacking restores text and index byte for byte |
| `HeaderList.UnpackAndPack` | header.c:527-628 | a received header of good lines is packed again to the same bytes |
| `HeaderPacking.ScanGood` | header.c:589-622 | from any place in any line, the index loop finds exactly the line starts that are left although it skips the first byte of each line |
| `HeaderText.TestIsName` | header.c:348-355 | the comparison at a line start says whether the line has the name, whatever the byte behind the buffer is |
| `HeaderText.NamedInAnyCase` | header.c:340-362 | a line has the name if and only if it starts with its letters, in any case, and a colon |
| `HeaderText.CaseDoesNotMatter` | header.c:340-362 | a name with its letters in another case finds the same line |
| `HeaderText.WholeTexts` | header.c:272-278 | the bytes of a list of two lines, packed and unpacked |
| `Encapsulated.SetStarts` | request_common.c:107-119 | the start of every entity is the number of packed header bytes in front of it |
| `Encapsulated.PrintList` | request_common.c:122-133 | the printed header lists every entity, and the 512-byte buffer never cuts it |
| `Encapsulated.Process` | request_common.c:502-529 | the parser's loops on the array of five entities equal its recursive form on every line, an overrun of the array included; it leaves the array terminated if and only if it stored at most four |
| `Encapsulated.NameThere` | header.c:711-735 | every printed entity name is recognised as its kind, but that of an opt-body never is |
| `Encapsulated.NamesAre` | header.c:60-67 | the printed text of each kind of entity |
| `Encapsulated.HeaderIs` | request_common.c:122-137 | the printed header of a response modification |
| `Encapsulated.ParsePrint` | request_common.c:502-529 | ROUND TRIP: a printed list parses to the same kinds and starts, with hasbody unset exactly for a null-body, if and only if it lists no opt-body and at most five entities; more overrun the array; an empty list reads as one null-body |
| `Encapsulated.SixOverrun` | request_common.c:513-521 | six entities of any printable kind are stored behind the array of include/request.h:113 |
| `Encapsulated.Announce` | request_common.c:94-147 | the sizes are taken before the header lists are packed, and still, printed and read again, every entity has its actual byte offset in the packed text; a list with an opt-body is refused when read |
| `HeaderEnd.ReadHeader` | request.c:208-276 | for every way the data are cut, the header ends at the first CRLF CRLF of the stream, exactly the bytes behind it are kept, and no read overruns the buffer |
| `HeaderEnd.ClientReader.ParseHeader` | client.c:356-387 | holding back three bytes misses no end and invents none; the second CRLF is dropped and the rest stays in the window |
| `HeaderEnd.ReadByClient` | client.c:356-387 | repeated over every cutting, the client stops at the first CRLF CRLF of the stream with exactly the bytes behind it |
| `HeaderEnd.BothReaders` | request.c:208-276 | AGREEMENT: on the same data server and client find the same header and keep the same rest, and neither finds one where the other finds none |
| `Protocol.Request.DoRequest` | request.c:1609-1750 | for every client, configuration and service the whole sequence of status lines, case by case, over the real reading of the preview and the real exchange of bodies; in it 100 Continue exactly when a preview with a plain end is to go on, once and first; 204 only in a preview or with Allow 204; 206 only with Allow 206; two final answers if and only if a 204 outside a preview meets a body, unlocked data and a first wait that does not fail; an unknown method is not answered; a success has been answered, and what send_remaining_response sent is then a whole response to the service's output unless the service stalled |
| `Protocol.Request.RequestPreview` | request.c:1401-1472 | the preview answers 100 exactly when the service goes on and the client has more to send, and at most one final status |
| `Protocol.Request.FakePreview` | request.c:1478-1556 | outside a preview never 100, and a second final answer exactly in the unlocked case |
| `Protocol.Request.GetSendBody` | request.c:982-1170 | from the run of a sender: nothing is started while the data stay locked or when the service is the server's own, and unlocked data are answered, with the return code of that moment, exactly when the exchange begins |
| `Protocol.Request.EndOfData` | request.c:1561-1606 | with nothing final out the answer of the handler decides: 204 or the 200 in its place, 206 as the code to send, the code decided before, or 500; with something out nothing is added |
| `Protocol.EndDecides` | request.c:1561-1606 | when do_end_of_data is reached with nothing final out: 204 (200 in its place) and 206 where the client allows them, the code decided before when the service is done, 500 otherwise, each as the one final answer |
| `Protocol.CodesOfAnswers` | request.c:1401-1606 | the exact condition for each of 100, 200, 204, 206 and 408 to be among the answers of a served request, and no other code but 500 |
| `Protocol.ServerError` | request.c:1401-1606 | 500 is among them exactly when a handler fails or says what is out of place or not allowed |
| `Protocol.Refusals` | request.c:1609-1660 | the exact condition for each of 400, 403, 407 and 500 as the answer to a request that is not served |
| `Protocol.Request.SendRemaining` | request.c:1174-1237 | on the sender of the exchange, or a new one: a final answer is started exactly when none is out and there is something to send from; what is sent is a prefix of a response to the service's output, and all of it on success without a stall |
| `Protocol.GoesOnIfPlain` | request.c:1401-1472 | a 100 Continue means that the client ended its preview plainly; a preview that keeps to its announced length is gone on with exactly when its last chunk is plain and the service wants more |
| `Preview.Buf.Write` | request_common.c:62-69 | all of the data or nothing, refused exactly when they do not fit |
| `Preview.Buf.Resize` | request_common.c:71-81 | an empty buffer of the size class of the request, or a larger one that was there |
| `Preview.ReadPreviewData` | request.c:587-635 | the loop over decoder, buffer and network gives exactly the data of the whole reception, and fails exactly when the reception does or its data do not fit the buffer |
| `Preview.PreviewEnds` | request.c:587-635 | however a preview is cut, once it has arrived reading it fails if and only if its data exceed the buffer; otherwise the data are exactly the client's, and it is read as finished exactly when its last chunk has an extension |
| `Preview.AnnouncedFits` | request.c:523-529 | a preview that is not longer than announced never fails once it has arrived |
| `Preview.OversizeFails` | request.c:612-616 | a preview announced as empty that brings 65 bytes fails |
| `ConnectionQueue.List.PushBack` | array.c:805-861 | one more item at the end, on a node from the trash or a new one; list and trash stay disjoint and together all nodes |
| `ConnectionQueue.List.Pop` | array.c:863-892 | the first item, in order; its node moves to the trash and the cursor never stays on it |
| `ConnectionQueue.Queue.Put` | proc_threads_queues.c:74-88 | -1 exactly without the mutex, 0 exactly at the limit; otherwise the connection is last in the queue if the list had a node for it, and only counted if not; the count stays right if and only if it had |
| `ConnectionQueue.Queue.Get` | proc_threads_queues.c:90-102 | takes the oldest connection, none exactly when the count is zero, and leaves the caller's variable as it was when the count is too high and the list empty |
| `WorkerPool.Safety` | mpmt_server.c:571-702 | SAFETY: in every interleaving of listener and workers each accepted connection is in exactly one place if and only if every put_to_queue that was not refused found the mutex and a node; then connections are taken in the order of their arrival and the count is the length; in every run the count is within the limit and usedservers is the number of workers between add and sub |
| `WorkerPool.StaleConnection` | proc_threads_queues.c:83-99 | after a push without a node the connection is in no place, and the worker that asks next is given what its own variable still holds |
| `WorkerPool.OnePlace` | mpmt_server.c:571-702 | a connection that has arrived is counted once over listener, queue, workers and closed ones |
| `WorkerPool.GoneAfterExit` | mpmt_server.c:571-702 | a worker is gone if and only if it has taken its exit; otherwise it goes round its loop |
| `WorkerPool.NeverStuck` | mpmt_server.c:571-702 | every worker that is not gone, and the listener, can take a step |
| `WorkerPool.FromArrivalToEnd` | mpmt_server.c:571-825 | a connection that meets an idle worker is accepted, queued, taken, counted, served and closed, and leaves everything else as it was |
| `WorkerPool.Play` | mpmt_server.c:817-825 | REFINEMENT: with the linked list in place of the sequence, its failures included, every schedule gives a run of the model, and one without losses when the mutex and a node are always there |
| `FlatArray.Build` | array.c:1204-1218 | storing from the rear gives an array that holds exactly the items |
| `FlatArray.ItemIs` | array.c:1177-1191 | every item comes back with its exact bytes and size, and then NULL |
| `FlatArray.Check` | array.c:1162-1175 | the checker accepts exactly the indices that descend from the size |
| `FlatArray.HoldsDescends` | array.c:1162-1218 | a built array passes the checker |
| `FlatArray.ToPointers` | array.c:1139-1160 | in place, each index entry moves down one word before it is overwritten, and becomes a pointer behind which exactly its item lies; a NULL ends the table |
| `Vector.Vector.Add` | array.c:550-571 | one more value, below the others; NULL exactly when index word and item do not both fit, and the allocator is then as before if and only if nothing was reserved; after a failed call that kept an index word, the next success breaks the index, and only then |
| `Vector.Vector.Pop` | array.c:573-597 | takes off the last value, and puts both ends of the allocator right also after a failed add |
| `Vector.AddAndPop` | array.c:550-597 | INVERSE: pop undoes add on the index, both allocator ends and all stored bytes |
| `Vector.Vector.Get2` | array.c:527-542 | every item starts with the value that was added, and its size is all of its room |
| `Vector.Vector.Flatten` | array.c:1070-1098 | the flat array holds every item of the vector with all of its room |
| `Vector.Rebuild` | array.c:1112-1137 | a vector with exactly the items of the flat array, if and only if they fit |
| `Vector.SpareIsEnough` | array.c:1124-1137 | the spare 1024 bytes are enough as long as the structures and what rounding adds take no more |
| `Vector.StoreAndRead` | cache.c:432-474 | ROUND TRIP: a vector stored in a cache entry comes back with the same number of items and the same bytes in each |

## Left out

- Sockets, TLS, timeouts, signals, fork, shared memory and process mutexes: a read or a write is a step of arbitrary length that may fail; locks of threads are taken to work, but for that of the connection queue.
- Compression, regular expressions, configuration, modules and services themselves, logging, access lists, authentication, statistics and the web server: plumbing, or libraries whose code is not here.
- Trailers, named and cached body files, and the lock, truncate and mmap operations of the simple file: further cases of the same state machines.
- Insertion, removal and sorting in the middle of lists: the queue uses push_back and pop only.
- Liveness of the workers: waking up uses a condition variable without looking at the queue again, so only safety is stated.
- The listener's fork and scaling decisions (mpmt_server.c:860-1238).
- Reading encapsulated headers of announced sizes, and the Preview and Allow headers: they only set inputs of the model.
- ci_headers_iterate, the value pointers of a header search, cloning and the status line helpers: they only read a list.
- Chunk sizes that are negative or do not fit an int less two: the decoder model stops with BAD_SIZE there, because the C arithmetic is not defined.
- Memory behind the modelled buffer reads as NUL in the text parsers; a C char is a Dafny char.
- The counters of bytes in and out, which the decoder counts twice for a last chunk that arrives in pieces.
- Integer overflow of buffer sizes in header lists and vectors.
- ResponseSender.Responder.GetSendBody: bytes that arrive with the body from behind it are left out of the statements about the client, since the loop may hand them to the decoder again (request.c:1047-1053); at most two encapsulated headers precede a body; data once unlocked stay unlocked; timeouts are the end of the waits.
- ResponseSender.Responder.SendRemainingResponse: a service that answers OK with a negative length other than CI_EOF in the last phase makes the loop of the code (request.c:1192-1231) spin for ever, since no branch of it applies to such a length; here it counts as failed. A service that reads zero bytes there ends the response early, as in the code.
- ResponseSender.Responder.UpdateSendStatus: the error answer for a header that could not be built is not in the model, because mk_responce_header (request.c:719-775) always returns 1.
- LocalCache.Cache.constructor: the refusals of the source (no entry fits in the memory, an allocation fails), which make no cache, are not modelled.
- LocalCache.Cache.Search: an entry of age exactly ttl hits as long as it has not been replaced; the contract says nothing about that instant.
- LocalCache.Cache.Update: the copy callback is part of the memory that may not be there, and freeing of keys and values is not modelled.
- Preview.Buf.Resize: memory for the buffer is there; the code does not look at the answer (request.c:529).
- BufferPools.Buffers.Alloc: sizes from 1 to 2^37, whose size class index is a non-negative int; malloc inside a pool is taken to succeed, as the code does not look.
- HeaderList.Headers.Terminate: for a list of nothing but end bytes the code looks in front of its buffer; the model takes that as a failure.
- HeaderList.Headers.Search: in a packed list the name must not hold CR.
- HeaderList.Headers.AddHeaders: a list is not added to itself.
- HeaderList.Headers.Unpack: what becomes of texts that are not made of good lines is stated only as far as the error answers go.
- Encapsulated.Process: a number that would be read from behind the end of the line, and an entity that would be stored behind the array, are outcomes of their own at which the model stops.
- HeaderEnd.ReadHeader: what the previous request left fits the buffer, as it comes from a buffer of the same size.
- Protocol.Request.DoRequest: the exchange of bodies is a run of ResponseSender.Responder; and so is what is sent after it. The response that goes out is one given plan, whatever its return code, and memory for the echo buffer is there. Handlers unlock data only in the ways the model has for them.
- WorkerPool.Safety: a connection is served and closed in two steps; the requests on it are not told apart.
- FlatArray.Check: asks for one item at least, since the code looks behind the index of an empty array.
- Vector.Vector.Flatten: asks for one item at least, since the code takes the last item's address.
- Vector.Rebuild: the structures in front of the index take at most 1000 bytes, and memory for the new vector is there, since the code uses the result of ci_vector_create without looking at it (array.c:1130-1131).
- MD5Stream.Context.Final: words are numbers below 2^32 with bitwise functions defined on their bits; a build has the byte order that configure.ac:32-45 found for its machine.
