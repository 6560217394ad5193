# pgs3 in Dafny

pgs3 is an S3-compatible object store that runs inside PostgreSQL: an HTTP worker parses requests,
verifies their signatures, decodes their bodies, stores them in tables as blobs made of chunks and
extents, and streams them back. This project models the parts of it whose correctness is a statement
about whole runs and proves those statements for every input.

## What is modelled

**Blobs** (`BlobStore`, `BlobWalk`, `BlobHash`; `src/hash.rs`). A blob is stored inline, in chunks, or
as extents that point into other blobs. `Content` defines by recursion what a blob contains. The walker
is an object with a path and a list of emitted blocks, as in the source. On every store whatsoever it
stops, its path stays free of repetitions and at most 64 long, and a successful walk has emitted exactly
the requested slice of the content in blocks of at most 1 MiB. On a well-formed store nested at most 64
deep it never reports corruption. The tables are maps keyed by blob and sequence number, as declared in
`sql/bootstrap.sql:42-64`, `136-142` and `166-181`.

**The aws-chunked encoding** (`AwsChunked*`; `src/protocol/chunked.rs`, the AWS page "Transferring Payload
in Multiple Chunks"). `AwsChunked` is the decoding loop as a function on values; `AwsChunkedDecoder` is
the object with its buffer, offset and counters, proved to compute that function. `AwsChunkedCuts` and
`AwsChunkedLimit` settle when cutting a stream into pushes can be observed: exactly when
`max_chunk_header_bytes` is one of the lengths a header of the mode in use can have (82 to 97 bytes
signed, 1 to 16 unsigned); the default limit of 1024 is safe. `AwsChunkedWire` gives the language of legal
streams and proves that the decoder accepts exactly that language, and that whatever it has released at
any moment, even before a failure, is the data of an authenticated chain of chunks. Hash, HMAC and
checksum functions are parameters about which nothing is assumed, except that `CutExposed` and
`CutIndependence` take signatures to be 32 bytes long.

**The chunked transfer coding** (`HttpChunked*`; `src/workers/http.rs`, section 7.1 of RFC 9112). The same
three layers: one byte at a time on values, the legal language, and the object that copies data in
blocks.

**Upload sessions** (`UploadTrace`, `UploadSession`, `UploadService`; `src/s3/service.rs`). A session cuts
decoded bytes into database chunks, checks every digest the request declared and every trailer of the
body, and then publishes or cleans up. What it was opened with is kept in constants. Every
database call is logged with its outcome, and an arbitrary function decides which calls succeed. A stored
chunk is identified by its digest and length, as `_worker_put_chunk` returns them
(`sql/bootstrap.sql:3814-3868`). The decoder and the transfer framing enter sessions and exchanges through
the functions their objects are proved against.

**The exchange** (`BodyFraming`, `HttpExchange`, `EndToEnd`; `src/workers/http.rs`). One request cycle,
composed with the service above; authentication, routing and response serialization are arbitrary
functions. The service keeps a list of the heads it was given. `EndToEnd.RunRequest` joins the layers:
from the bytes received on a connection through the head, the transfer coding, the aws-chunked encoding
and the session to the chunks and the publish call in the database log, and back: a request without a
fault is delivered (`UploadDelivery` has the part of the service). `HttpConnection` follows a connection
through all its requests to its end.

**Gauges and the connection loop** (`Gauges`, `Reactor`; `src/workers/http.rs`, `src/workers/mod.rs`).
Sockets, the clock and what an exchange does with arriving bytes are arbitrary functions of the tick and
the connection. `Driven` is what one drive amounts to; the loops compute it.

**Heads, paths, queries and signatures** (`Percent`, `Utf8`, `PathStyle`, `Ordering`, `Query`,
`RequestHead`, `RequestHeadWire`, `SigV4`; `src/protocol/http.rs`, `src/protocol/sigv4.rs`). Text is
modelled as bytes. What is signed determines what is routed: requests with the same canonical bytes are
authenticated the same way and have the same bucket, key, parameters and x-amz- fields.

**The calendar** (`Civil`; `src/protocol/sigv4.rs`, `src/s3/xml.rs`) and **metadata JSON**
(`MetadataJson`; `src/s3/service.rs`).

`ChunkFraming` holds the shape the two chunked codings share. Functions that call themselves are often
given a second, plain name in specifications (`Visible`, `Drained`, `Ran`, `Chars`, `Remaining`): the
verifier then treats two mentions as the same term instead of unfolding both.

## Findings

- The claim that cutting an aws-chunked stream cannot be observed is false for some configurations of the
  code: with a limit that equals the length of a legal header, that header is refused when its CR and LF
  arrive in different pushes. `CutIndependence` is the exact condition, `CutExposed` the failing input.
- `abort_body` does not look at `active`. "Ended at most once" is therefore false of it: an upload aborted
  before its first chunk and aborted again is cleaned up twice (`GivenUpTwice`), and one that was published
  is cleaned up afterwards (`CleanupTooMany`). The exact condition is that the session is active
  (`AbortOnlyActive`). The exchange never aborts any other (`CycleExactlyOnce`).
- The second budget check in `accept_decoded` of the aws-chunked decoder, the overflow check on sixteen
  hexadecimal digits, the overflow checks on timestamps, and the saturation of the gauges can never
  trigger (`DataCrlfValid`, `ParseDigits`, `TimestampFits`, `NoSaturation`).

## Model

| member | source | states |
|---|---|---|
| `BlobStore.DenseKeys` | src/hash.rs:112-137 | n distinct row numbers between 0 and n-1 are all of them (pigeonhole) |
| `BlobStore.DenseLayoutExact` | src/hash.rs:112-137 | count, minimum, maximum, sum and row check report no error if and only if the rows are numbered 0..n-1, add up to the size and are valid |
| `BlobStore.SumIsPrefixSum` | src/hash.rs:219-242 | the sum a query aggregates over dense rows is the prefix sum over all of them |
| `BlobStore.WindowIsPrefixSum` | src/hash.rs:280-337 | the window sum before a row is the prefix sum up to it |
| `BlobWalk.ChunkLayout` | src/hash.rs:244-278 | an accepted chunk layout tiles the blob: every chunk but the last has the chunk size and the contents concatenate to the blob size |
| `BlobWalk.ExtentLayout` | src/hash.rs:280-337 | an accepted extent layout is contiguous from 0 to the size, each extent starting where the previous one ends |
| `BlobWalk.ChunkFits` | src/hash.rs:473-489 | between the first and last chunk of a range no 32-bit or 64-bit bound is reached, every row exists and the clipped read lies in it |
| `BlobWalk.ClipStep` | src/hash.rs:491-512 | appending a piece extends the clipped part by the overlap of the piece with the range |
| `BlobWalk.BlobWalker.EmitBoundedCell` | src/hash.rs:423-447 | a cell is emitted as blocks of at most 1 MiB that concatenate to exactly the requested slice, or the read is reported as corrupt |
| `BlobWalk.BlobWalker.StreamBlobRange` | src/hash.rs:449-516 | on any store: termination, a path without repetitions of at most 64 ids, restored on success; success emits exactly the slice of the recursively defined content; on a well-formed store nested at most 64 deep an in-range walk succeeds |
| `BlobWalk.BlobWalker.StreamChunks` | src/hash.rs:468-490 | the chunked branch emits the slice of the joined chunks |
| `BlobWalk.BlobWalker.StreamChunkRows` | src/hash.rs:473-489 | the loop over the chunks that meet the range emits exactly the slice and never fails after the layout checks |
| `BlobWalk.BlobWalker.StreamEntered` | src/hash.rs:464-516 | the id is on the path while its blob is streamed and off it again on success |
| `BlobWalk.BlobWalker.StreamExtents` | src/hash.rs:491-514 | the composite branch emits the slice of the joined extents, recursing into their sources |
| `BlobWalk.BlobWalker.ValidateChunkLayout` | src/hash.rs:244-278 | success means the rows tile the blob; on a well-formed store validation succeeds |
| `BlobWalk.BlobWalker.ValidateExtentLayout` | src/hash.rs:280-337 | the same for extents, each starting at the sum of the lengths before it |
| `BlobWalk.BlobWalker.StreamStored` | src/hash.rs:466-514 | every storage kind emits the slice of the content, with the blob on the path |
| `BlobWalk.BlobWalker.StreamChunk` | src/hash.rs:474-488 | one turn of the chunk loop extends what was emitted by the clipped chunk; none of its guards can fire after the layout checks |
| `BlobWalk.BlobWalker.StreamExtentRows` | src/hash.rs:491-513 | the extent loop emits, one after the other, exactly what each extent contributes to the range, and restores the path |
| `BlobWalk.ReadsAll` | src/hash.rs:491-514 | the contributions of all extents of an accepted layout concatenate to the slice of the content |
| `BlobWalk.ContentDepth` | src/hash.rs:449-516 | on a well-formed store the content of a blob is the same at every depth above its rank: the depth argument of the definition does not matter |
| `BlobWalk.VisibleAnywhere` | src/hash.rs:449-516 | so what a walk sees below any path that leaves room is the whole content |
| `BlobWalk.BlobWalker.StreamExtent` | src/hash.rs:494-511 | one extent emits the overlap of its piece with the range, or nothing outside it |
| `BlobHash.StreamVerifiedBlob` | src/hash.rs:518-543 | success feeds exactly the blob's content, of the recorded size, whose digest is the blob id; a well-formed blob with the right digest always succeeds |
| `BlobHash.ValidatePart` | src/hash.rs:641-647 | a part is accepted when its rows are numbered 0..n-1, and then its recorded size is the sum of the rows |
| `BlobHash.FeedPart` | src/hash.rs:649-658 | the digest is fed the verified contents in row order, each of its recorded size |
| `BlobHash.FeedChunk` | src/hash.rs:649-658 | one row is verified against its id and its recorded size before it is fed |
| `BlobHash.HashBlobSequence` | src/hash.rs:669-692 | the digest is that of the concatenation of the whole contents of the listed blobs, each verified |
| `BlobHash.HashUploadPart` | src/hash.rs:622-667 | the digest is that of the concatenation of the staged chunks in row order, which are numbered 0..n-1 and of the recorded sizes and digests; a staged part that is so succeeds |
| `AwsChunked.DataCrlfValid` | src/protocol/chunked.rs:331-346 | the budget reserved by the header makes the second check of it in `accept_decoded` unable to fail; the state invariant is kept |
| `AwsChunked.IterateValid` | src/protocol/chunked.rs:262-370 | every turn of the loop keeps the state invariant and consumes input |
| `AwsChunked.ChecksumsExact` | src/protocol/chunked.rs:505-532 | the trailers pass if and only if every declared checksum arrived, has the right length and decodes to the checksum of the released bytes |
| `AwsChunkedCuts.HeaderLength` | src/protocol/chunked.rs:588-609 | an accepted header line is 1 to 16 bytes long without a signature and 82 to 97 with one |
| `AwsChunkedCuts.DrainExtends` | src/protocol/chunked.rs:249-371 | bytes after a cut continue where the cut left off, turn an end into an error, and leave an error an error with the same released bytes |
| `AwsChunkedCuts.FeedAgrees` | src/protocol/chunked.rs:249-371 | a stream fed in any fragments that does not fail reaches the state of one push of the whole; when no header can be cut short, failing agrees too |
| `AwsChunkedCuts.FeedPrefix` | src/protocol/chunked.rs:249-371 | feeding fragments always equals one push of the fragments up to some point |
| `AwsChunkedLimit.CutExposed` | src/protocol/chunked.rs:553-575 | for every configuration with an unsafe limit, under the assumption that signatures are 32 bytes: a stream that one push takes without an error and that is refused when cut between CR and LF |
| `AwsChunkedLimit.CutIndependence` | src/protocol/chunked.rs:553-575 | all fragmentations of all streams agree if and only if the header limit is none of the possible header lengths of the mode (an HMAC of 32 bytes in signed mode) |
| `AwsChunkedWire.ChunkRound` | src/protocol/chunked.rs:266-346 | a legal chunk is consumed whole, authenticated against the chain and released |
| `AwsChunkedWire.LegalAccepted` | src/protocol/chunked.rs:249-371 | every legal stream is accepted and decodes to the data of its chunks, its trailers and its last signature |
| `AwsChunkedWire.AcceptedLegal` | src/protocol/chunked.rs:249-371 | every accepted stream is a legal run of chunks, a verified zero chunk, legal trailers, the declared length and matching checksums |
| `AwsChunkedWire.AcceptsExactlyLegal` | src/protocol/chunked.rs:249-371 | a stream pushed whole is accepted if and only if it is legal |
| `AwsChunkedWire.ReleasedChain` | src/protocol/chunked.rs:249-371 | whatever the verdict, the released bytes are the data of a legal, authenticated run of chunks at the front of the input |
| `AwsChunkedWire.ReleasedAuthentic` | src/protocol/chunked.rs:387-437 | the same for every fragmentation and at every moment |
| `AwsChunkedWire.FedLegal` | src/protocol/chunked.rs:249-371 | however it is cut, only a legal stream is accepted, with the result of one push |
| `AwsChunkedDecoder.ValidateDeclarations` | src/protocol/chunked.rs:611-631 | declarations are accepted exactly when they are non-empty, supported and pairwise distinct |
| `AwsChunkedDecoder.TrimOws` | src/protocol/chunked.rs:633-641 | optional white space is removed at both ends and nowhere else |
| `AwsChunkedDecoder.ParseHeader` | src/protocol/chunked.rs:588-609 | the loop over extensions computes the header grammar |
| `AwsChunkedDecoder.Create` | src/protocol/chunked.rs:204-230 | a decoder exists exactly for valid declarations and starts from the seed signature |
| `AwsChunkedDecoder.Decoder.constructor` | src/protocol/chunked.rs:204-230 | a new decoder is in the start state |
| `AwsChunkedDecoder.Decoder.VerifySignature` | src/protocol/chunked.rs:410-437 | a signature is accepted exactly when it is the next in the chain for these bytes |
| `AwsChunkedDecoder.Decoder.OpenChunk` | src/protocol/chunked.rs:272-313 | a header line is accepted or refused as the header rules say, before anything is buffered |
| `AwsChunkedDecoder.Decoder.CheckHeader` | src/protocol/chunked.rs:272-297 | the limits on a chunk and the presence of its signature are checked in this order |
| `AwsChunkedDecoder.Decoder.OpenLast` | src/protocol/chunked.rs:298-303 | the last chunk opens the trailers exactly when its signature, over no data, is the next one of the chain |
| `AwsChunkedDecoder.Decoder.ReadHeader` | src/protocol/chunked.rs:266-314 | one turn in the header phase is one iteration of the decoder on values |
| `AwsChunkedDecoder.Decoder.ReadData` | src/protocol/chunked.rs:315-330 | one turn in the data phase is one iteration |
| `AwsChunkedDecoder.Decoder.AcceptData` | src/protocol/chunked.rs:344-408 | what the hashers absorb is what the caller receives, nothing beyond the budget, and a header is expected next |
| `AwsChunkedDecoder.Decoder.Compact` | src/protocol/chunked.rs:577-585 | dropping the consumed front of the buffer is not observable |
| `AwsChunkedDecoder.Decoder.TakeInput` | src/protocol/chunked.rs:553-575 | a line is taken, refused as too long, or left for later, and only a taken line moves the offset |
| `AwsChunkedDecoder.Decoder.ReadTerminator` | src/protocol/chunked.rs:331-346 | a chunk is released, hashed and output only behind its terminator and its signature |
| `AwsChunkedDecoder.Decoder.StoreTrailer` | src/protocol/chunked.rs:439-489 | a trailer is stored exactly when the trailer rules accept it, with the same error otherwise |
| `AwsChunkedDecoder.Decoder.CheckTrailers` | src/protocol/chunked.rs:491-534 | the loop over declared checksums finds the first one that does not hold of the bytes hashed |
| `AwsChunkedDecoder.Decoder.AcceptLine` | src/protocol/chunked.rs:351-366 | a trailer line is counted, stored, or ends the stream |
| `AwsChunkedDecoder.Decoder.ReadTrailers` | src/protocol/chunked.rs:347-367 | one turn in the trailer phase is one iteration and releases nothing |
| `AwsChunkedDecoder.Decoder.Run` | src/protocol/chunked.rs:264-370 | the loop reaches the outcome of draining the buffer |
| `AwsChunkedDecoder.Decoder.Push` | src/protocol/chunked.rs:249-371 | the object's push computes the decoder on values: status, output, state and error |
| `AwsChunkedDecoder.Decoder.Finish` | src/protocol/chunked.rs:374-385 | the end of input is an error in every phase but the last, by phase |
| `HttpChunked.PushAppend` | src/workers/http.rs:246-361 | two pushes and one push of the concatenation give the same entity bytes, consumption and state, or the same error at the same limit |
| `HttpChunked.FragmentationIrrelevant` | src/workers/http.rs:246-361 | the same for any number of fragments |
| `HttpChunked.BulkData` | src/workers/http.rs:284-295 | copying a block of data is copying it byte by byte, up to the wire limit |
| `HttpChunkedWire.RoundTrip` | src/workers/http.rs:246-465 | any legal encoding followed by any suffix decodes to its data, consumes exactly the encoding and leaves the suffix |
| `HttpChunkedWire.CompleteLegal` | src/workers/http.rs:246-465 | whatever is read to completion is a legal encoding within every limit, followed by what is left |
| `HttpChunkedWire.CompletesExactlyLegal` | src/workers/http.rs:246-465 | the body is complete after exactly n bytes if and only if those n bytes are a legal encoding |
| `HttpChunkedWire.BodyRoundTrip` | src/workers/http.rs:246-386 | any body cut into non-empty pieces, written with hexadecimal sizes, a zero chunk and legal trailers within the limits, is read back exactly |
| `HttpChunkedDecoder.ScanQuoted` | src/workers/http.rs:402-431 | the index loop finds the end of a quoted string or refuses it |
| `HttpChunkedDecoder.ValidateExtensions` | src/workers/http.rs:388-445 | the loop accepts exactly well-formed extension lists |
| `HttpChunkedDecoder.ParseDigits` | src/workers/http.rs:369-382 | sixteen hexadecimal digits never overflow 64 bits, so the only error is a malformed digit |
| `HttpChunkedDecoder.ParseSizeLine` | src/workers/http.rs:363-386 | a size line parses exactly as the grammar says |
| `HttpChunkedDecoder.SkipExtension` | src/workers/http.rs:398-441 | an extension value, quoted or not, is skipped exactly when it is well-formed |
| `HttpChunkedDecoder.ChunkDecoder.ChargeWire` | src/workers/http.rs:353-361 | every byte of wire is charged against the limit |
| `HttpChunkedDecoder.ChunkDecoder.SizeByte` | src/workers/http.rs:256-283 | one byte of a size line is one step of the byte-wise decoder |
| `HttpChunkedDecoder.ChunkDecoder.TrailerByte` | src/workers/http.rs:308-339 | one byte of a trailer line is one step of it |
| `HttpChunkedDecoder.ChunkDecoder.FramingByte` | src/workers/http.rs:256-339 | one byte of framing in any state is one step of it |
| `HttpChunkedDecoder.ChunkDecoder.DataBlock` | src/workers/http.rs:284-295 | a block moves the counters and the state as its bytes would one by one |
| `HttpChunkedDecoder.ChunkDecoder.Advance` | src/workers/http.rs:253-345 | a turn of the loop leaves the result of the run unchanged |
| `HttpChunkedDecoder.ChunkDecoder.Push` | src/workers/http.rs:246-350 | the object that copies blocks computes the byte-wise decoder; its counters stay within their limits |
| `BodyFraming.PushThen` | src/workers/http.rs:174-204 | for every framing, the entity does not depend on how the bytes arrive, and nothing is read after its end |
| `BodyFraming.EntityPrefix` | src/workers/http.rs:628-671 | a part of framed bytes is framed to a part of the entity, and to all of it once the body is complete |
| `UploadTrace.LengthsSum` | src/s3/service.rs:985-1003 | the sizes in a manifest add up to the bytes of the chunks they describe |
| `UploadTrace.PutsNumbered` | src/s3/service.rs:985-1022 | the put with sequence number k stored the k-th chunk |
| `UploadTrace.ExactlyOneEnding` | src/s3/service.rs:1599-1631 | a finished upload was published once and never cleaned up, or cleaned up once and never published |
| `UploadTrace.CleanupEnds` | src/s3/service.rs:664-667 | one more cleanup leaves an upload cleaned up exactly once if and only if it was neither published nor cleaned up before |
| `UploadTrace.CleanupTooMany` | src/s3/service.rs:664-667 | after a cleanup the count is two, after a publication the upload is published and cleaned up |
| `UploadTrace.GivenUpTwice` | src/s3/service.rs:664-667 | the smallest failing log: an upload aborted before its first chunk and aborted again |
| `UploadSession.VerifiedDigestsHold` | src/s3/service.rs:1992-2039 | passing verification means that every declared digest is true of the body |
| `UploadSession.TrailersExtendDeclared` | src/s3/service.rs:2105-2140 | a trailer never replaces a declared checksum by a different one |
| `UploadSession.TrailersChecked` | src/s3/service.rs:2105-2140 | when all declared checksums hold, every trailer of the body carries the true checksum of its algorithm |
| `UploadSession.StagedStored` | src/s3/service.rs:985-1022 | storing a full chunk keeps numbers, digests, sizes and the concatenation in step with the body |
| `UploadSession.LastChunkCuts` | src/s3/service.rs:569-594 | stored chunks and the last one cut the body: all but the last full, only an empty body has an empty chunk |
| `UploadSession.LoneChunk` | src/s3/service.rs:572-578 | a chunk sent when nothing else was is the whole body, so the reused digest is its own |
| `UploadSession.LastChunkHeld` | src/s3/service.rs:972-1024 | a body of known length that ends on a chunk boundary leaves its last chunk, full, in the buffer |
| `UploadSession.SequenceFits` | src/s3/service.rs:1019-1021 | below 2^31 - 1 minimal chunks the sequence number cannot overflow |
| `UploadService.Service.constructor` | src/s3/service.rs:391-402 | the chunk size is clamped to 64 KiB..16 MiB and the direct limit to the other limits and 64 KiB; no head has been handled |
| `UploadService.Service.OpenSink` | src/s3/service.rs:782-869 | the sink is what the admitted request calls for: a direct put exactly for a plain, unexpecting body of a known length within the limit, with the declared or signed digest; a staged sink of the configured chunk size for the part; there is none exactly when a staged upload was needed and the database did not open it; opening one uses up one database call |
| `UploadService.Service.HandleHead` | src/s3/service.rs:727-892 | every head is recorded once; a session is opened, and recorded, exactly for an admitted head with a body of acceptable length whose sink can be opened, and it carries the payload mode, digests, tracked algorithms, encoding, lengths and sink of that admission; every immediate answer is the one of its case |
| `UploadService.Session.constructor` | src/s3/service.rs:874-891 | a new session keeps every argument, has received nothing, made no call and satisfies the session invariant |
| `UploadService.Service.StoreChunk` | src/s3/service.rs:984-1021 | a full buffer becomes the next numbered chunk and enters the manifest, or the session stops with an orderly log |
| `UploadService.Service.Stage` | src/s3/service.rs:972-1024 | decoded bytes of any size are cut into numbered full chunks plus a buffer; the last chunk of a fixed body that is not multipart is always held in the buffer; a failed call leaves an orderly log with one failure at its end; part and chunk size stay what they were |
| `UploadService.Service.AcceptDecoded` | src/s3/service.rs:927-1027 | digests and sink absorb exactly the decoded bytes, or the session stops |
| `UploadService.Service.TakeBody` | src/s3/service.rs:442-474 | a fragment is counted, decoded and absorbed, or stops the session for a reason found in its limits, its encoding or the database; a total over 64 bits is refused as too large |
| `UploadService.Service.RenewLease` | src/s3/service.rs:894-925 | a renewal that is due makes exactly one call and leaves the session as it was, or stops it |
| `UploadService.Service.Unwrap` | src/s3/service.rs:464-474 | the decoded bytes are exactly what the fragments received so far decode to |
| `UploadService.Service.PushBody` | src/s3/service.rs:431-480 | a push keeps the session invariant (body so far = stored chunks + buffer = decoded fragments; digests, part and chunk size as requested) or ends in exactly one cleanup; a fragment within every limit that decodes is accepted whenever the database obliges; a lease that is due has been renewed |
| `UploadService.Service.CheckBody` | src/s3/service.rs:482-538 | the checks pass exactly when wire length, end of encoding, size and digests are right; then every digest the request declared is true of the body, every trailer is, and the two together are what is passed on |
| `UploadService.Service.PublishUpload` | src/s3/service.rs:569-611 | the publish call carries the manifest, sizes, numbers and digests that describe the body and the declared SHA-256; a plain body of known length is published together with its last chunk |
| `UploadService.Service.StoreLastPart` | src/s3/service.rs:611-626 | the chunks of a part, the last one included, cut its body |
| `UploadService.Service.Deliver` | src/s3/service.rs:648-662 | the publish call ends the session: delivered, or cleaned up once |
| `UploadService.Service.FinishBody` | src/s3/service.rs:482-662 | finishing publishes a body that has every requested digest and that chunks of the configured size, manifest and digests describe, or ends in exactly one cleanup; a body that passes the checks is published whenever the database obliges |
| `UploadService.Service.AbortBody` | src/s3/service.rs:664-667 | the log grows by exactly the abort call of its kind; a live session is discarded; a staged one is cleaned up exactly once if and only if its log was interrupted before |
| `UploadService.AbortOnlyActive` | src/s3/service.rs:664-667 | for any session, live or over: aborting it leaves exactly one ending if and only if it is active |
| `UploadService.Service.FailSession` | src/s3/service.rs:1599-1603 | a failed session is inactive and cleaned up once |
| `UploadService.Service.Cleanup` | src/s3/service.rs:1611-1631 | a staged session makes exactly one abort call of its kind, any other none |
| `UploadService.DeliveredAuthentic` | src/s3/service.rs:482-538 | what is published was received at its declared length, satisfies every digest the request declared, and is the plain body or the data of a legal aws-chunked stream whose trailers are true of it |
| `UploadDelivery.PrefixWaits` | src/protocol/chunked.rs:262-370 | under a safe header limit every proper prefix of a stream that is accepted whole waits for more, and what it has released is kept |
| `UploadDelivery.FedOnTrack` | src/protocol/chunked.rs:262-370 | so does every prefix fed in any fragments |
| `UploadDelivery.LegalBody` | src/protocol/chunked.rs:262-370 | a legal stream decodes to its data and its trailers |
| `UploadDelivery.NextFits` | src/s3/service.rs:431-480 | every next fragment of an entity within the limits that decodes to a body with the declared digests is accepted |
| `UploadDelivery.WholePasses` | src/s3/service.rs:482-538 | received whole, it passes every check |
| `UploadDelivery.DeliverAll` | src/s3/service.rs:431-662 | so it is delivered, however it is cut, whenever the database obliges |
| `HttpExchange.ReadyCounts` | src/workers/http.rs:557-772 | a cycle that is ready to answer has at most one handled head and exactly one exit from a body that was begun |
| `HttpExchange.Exchange.QueueResponse` | src/workers/http.rs:748-763 | the one response of the cycle ends it, with a reason that the bytes received and the events bear out; one that cannot be written becomes a 500 and closes the connection |
| `HttpExchange.Exchange.AbortSession` | src/workers/http.rs:730-737 | a body given up is discarded by the service, once |
| `HttpExchange.Exchange.GiveUp` | src/workers/http.rs:691-737 | the body is discarded once and the given response queued |
| `HttpExchange.Exchange.FinishSession` | src/workers/http.rs:680-689 | a body is finished only when it is complete; the response is the one for the service's reply, which is success exactly when the body was delivered; one that passes the checks is delivered whenever the database obliges |
| `HttpExchange.Exchange.PushEntity` | src/workers/http.rs:651-664 | entity bytes reach the session in order; a refused push ends the body without an abort and is answered with the failure the service replied; what fits is not refused when the database obliges |
| `HttpExchange.Exchange.TakeEntity` | src/workers/http.rs:651-671 | framed bytes are handed on and a complete body is finished; what was promised is neither refused nor discarded |
| `HttpExchange.Exchange.BreakBody` | src/workers/http.rs:637-643 | bytes that break the framing give the body up and are answered with the error they raise |
| `HttpExchange.Exchange.IngestBody` | src/workers/http.rs:628-671 | all bytes of a fragment are framed, or the body is given up exactly when the framing is broken and answered with that error; the service receives exactly the framed entity so far; bytes behind the body close the connection; a complete body is finished at once |
| `HttpExchange.Exchange.BeginRequest` | src/workers/http.rs:590-626 | the head goes to the service exactly once, unless its expectation or its length is refused with 417 or 413; the session, if it opens one, begins with the framing of that head and the bytes that came with it, and is finished if they complete it; an immediate answer is the one of the service, and what it leaves unread closes the connection |
| `HttpExchange.Exchange.HandOver` | src/workers/http.rs:607-626 | the service is called once; a session is opened exactly when the service opens one for this head, and carries its admission; otherwise its answer is queued |
| `HttpExchange.Exchange.OpenBody` | src/workers/http.rs:615-617 | a body begins with the framing of its head and nothing handed on |
| `HttpExchange.Exchange.Ingest` | src/workers/http.rs:557-626 | every byte that arrives before the answer is taken into account once; a complete head that is acceptable is handed on, once; an answer is the one its reason calls for; nothing happens after a response |
| `HttpExchange.Exchange.Eof` | src/workers/http.rs:691-711 | end of input aborts a body once and is answered with 400 |
| `HttpExchange.Exchange.Timeout` | src/workers/http.rs:713-728 | an idle timeout aborts a body once and is answered with 408 |
| `HttpExchange.Exchange.Reset` | src/workers/http.rs:769-771 | the next cycle starts with an empty trace and no session |
| `HttpExchange.RunCycle` | src/workers/http.rs:557-728 | for every run of arrivals, end of input and timeouts: the service gets at most one head, the head of everything received; the body bytes are a prefix of what follows it, framed as it says; bytes behind the body close the connection; the session carries the admission of that head, or the answer of the service is queued; every answer is the one its reason calls for |
| `HttpExchange.HandedOver` | src/workers/http.rs:557-626 | when nothing but bytes came, a head that is complete and acceptable has been handed to the service |
| `HttpExchange.SuccessIsDelivery` | src/workers/http.rs:680-689 | success is reported exactly for a body that was delivered |
| `HttpExchange.CycleExactlyOnce` | src/workers/http.rs:557-772 | in every answered cycle: one response, at most one handled head, one exit; a staged upload published once with the whole entity handed on, or cleaned up once, and never both |
| `EndToEnd.Delivery` | src/workers/http.rs:628-689 | after a delivered request the body bytes legally frame an entity of the declared length, the entity legally decodes to a body that has every digest the request declared and whose trailers are true, and the publish call with the chunks stored before it describes exactly that body |
| `EndToEnd.RunRequest` | src/workers/http.rs:557-728 | for every way the bytes arrive and every behaviour of the database: the response is the one its reason calls for, success exactly for a delivered body; if anything was published, the bytes received begin with a head, what follows is framed as the head says to an entity, and the published body is what that entity decodes to under the admission of that head; and a request without a fault is delivered and answered with success |
| `EndToEnd.EntityFramed` | src/workers/http.rs:628-671 | legal framing is read to completion and yields the entity |
| `EndToEnd.FaultlessDelivered` | src/workers/http.rs:557-689 | an acceptable head that opens a session, legally framed and encoded, within the limits, with true digests and under an obliging database: delivered under every fragmentation |
| `HttpConnection.Connection.Abandon` | src/workers/http.rs:1293-1308 | a socket failure or the shutdown ends a session that is still receiving, and no other |
| `HttpConnection.Connection.Handle` | src/workers/http.rs:855-1020 | whatever happens to a connection, a session it held is kept, or is over exactly once |
| `HttpConnection.RunConnection` | src/workers/http.rs:1282-1382 | over the whole life of a connection, socket failures and the shutdown included, every session opened on it was published once or cleaned up once |
| `Gauges.NoSaturation` | src/workers/mod.rs:165-174 | buffered deltas stay within the number of connections, so saturating arithmetic is exact |
| `Gauges.CountServing` | src/workers/http.rs:1187-1206 | between ticks requests are classified as the operation that their exchange serves, so the two ways of counting agree |
| `Gauges.BalancedReclassify` | src/workers/http.rs:1187-1198 | moving a request between operations keeps every gauge equal to its number of active requests |
| `Gauges.BalancedFlush` | src/workers/http.rs:1384-1395 | writing a delta out keeps buffered plus flushed equal to the active requests |
| `Reactor.Worker.Drive` | src/workers/http.rs:855-894 | one drive computes `Driven` on the events of its tick, and is recorded once |
| `Reactor.DrivenKeeps` | src/workers/http.rs:855-894 | an active request stays active and classified until it completes, a new one is marked as started, and a connection closes quietly only without a request |
| `Reactor.IdleEnds` | src/workers/http.rs:859-879 | an idle connection without a request closes, a response that does not get through is given up, and a request that does not arrive is answered |
| `Reactor.DriveRead` | src/workers/http.rs:897-933 | the loop of at most eight reads computes `ReadFrom`: the first bytes start a request, an answer or a continuation ends the reading, an end of input closes quietly only without a request |
| `Reactor.DriveWrite` | src/workers/http.rs:956-998 | the loop of at most eight writes computes `WriteFrom`: a response written out reports the operation of its request and resets or closes the exchange |
| `Reactor.Worker.StartRequest` | src/workers/http.rs:1180-1185 | a started request is counted once, under the initial operation |
| `Reactor.Worker.ReclassifyRequest` | src/workers/http.rs:1187-1206 | a reclassified request is counted under its new operation only |
| `Reactor.Worker.CompleteRequest` | src/workers/http.rs:1208-1221 | a request ends under the operation it turned out to be: it leaves the bucket it was in, and is counted once as completed there |
| `Reactor.Worker.Account` | src/workers/http.rs:1330-1357 | the bookkeeping after a drive keeps every gauge balanced, leaves exactly what `Kept` leaves of the connection, and counts a completion under its operation |
| `Reactor.Worker.DriveOne` | src/workers/http.rs:1291-1357 | the connection is driven once and replaced by what is left of it, or removed; the others are still waiting as they were, wherever a removal has moved them |
| `Reactor.Worker.TrackImmediateError` | src/workers/http.rs:1223-1240 | counting and completing at once leaves every gauge as it was |
| `Reactor.Worker.DriveConnections` | src/workers/http.rs:1282-1359 | every connection present at the start of a tick is driven exactly once despite removal by swapping, and no other; the connections left are, in some order, what one drive of each with its own events leaves; the gauges stay balanced |
| `Reactor.SettlingRemoved` | src/workers/http.rs:1340-1342 | a removal that moves the last connection into the gap changes nothing about what the rest of the tick comes to |
| `Reactor.Worker.GaugesExact` | src/workers/http.rs:1180-1221 | the gauge of an operation, buffered and flushed, is the number of requests being served under it |
| `Reactor.Worker.AcceptConnections` | src/workers/http.rs:1242-1280 | at most 256 connections, each new one under a number never used before; one turned away leaves every gauge unchanged |
| `Reactor.Worker.FlushMetrics` | src/workers/http.rs:1384-1395 | exactly the deltas that cannot be written stay buffered; success means none are left |
| `Reactor.Worker.AbandonConnections` | src/workers/http.rs:1361-1382 | every gauge returns to zero |
| `Reactor.Serve` | src/workers/http.rs:1551-1618 | for every run of the main loop the worker leaves with every gauge at zero |
| `Percent.EncodeRoundTrip` | src/protocol/sigv4.rs:807-828 | decoding undoes the AWS encoding of every byte string |
| `Percent.CanonicalMeaning` | src/protocol/sigv4.rs:420-449 | the canonical spelling exists exactly when the text decodes, decodes to the same bytes, and is its own canonical spelling |
| `Percent.CanonicalAtSlash` | src/protocol/sigv4.rs:420-449 | an escape never straddles a slash, so canonicalization works on each side of it |
| `Percent.PercentDecode` | src/protocol/http.rs:504-522 | the index loop decodes exactly the well-formed escapes |
| `Percent.AwsEncode` | src/protocol/sigv4.rs:807-828 | the loop writes the encoding whose inverse is decoding |
| `Percent.CanonicalizeUri` | src/protocol/sigv4.rs:420-449 | the loop computes the canonical path |
| `PathStyle.CanonicalUriRoutes` | src/protocol/http.rs:278-319 | for every path: the canonical path exists exactly when the path decodes, is idempotent, and gives the same bucket and key or the same error |
| `PathStyle.RouteRoundTrip` | src/protocol/http.rs:278-319 | every routable bucket and key has a percent-encoded path that is routed to exactly them |
| `Ordering.SortUnique` | src/protocol/sigv4.rs:473 | two lists have the same sorted arrangement if and only if they are the same multiset |
| `Query.CanonicalDecides` | src/protocol/sigv4.rs:453-479 | two well-formed queries have the same canonical form if and only if they carry the same multiset of decoded parameters, each without the signature if it is excluded there |
| `Query.KeptMember` | src/protocol/sigv4.rs:453-479 | nothing but the signature parameter is ever excluded |
| `Query.CanonicalDecidesAll` | src/protocol/sigv4.rs:453-479 | the same with nothing excluded |
| `Query.CanonicalIdempotent` | src/protocol/sigv4.rs:453-479 | the canonical query is its own canonical query |
| `Query.ParseQuery` | src/protocol/http.rs:161-177 | the loop yields the decoded parameters in order, or fails on a bad escape |
| `Query.BuildCanonicalQuery` | src/protocol/sigv4.rs:453-479 | the loop, the sort and the join compute the canonical query |
| `RequestHead.ParsedHeadWellFormed` | src/protocol/http.rs:321-446 | a parsed head has a token method, a decodable path and query, lower-case token names, legal values, one host, and never both framings |
| `RequestHead.ReadExtends` | src/protocol/http.rs:241-263 | a verdict stands: more bytes only join the remainder |
| `RequestHead.FragmentsIrrelevant` | src/protocol/http.rs:241-263 | every fragmentation yields the same head or the same error; on completion the bytes pushed are that head, the first blank line and the remainder |
| `RequestHead.ParseContentLength` | src/protocol/http.rs:448-460 | the checked arithmetic refuses exactly the numbers that do not fit 64 bits |
| `RequestHead.ReadHeaders` | src/protocol/http.rs:364-392 | the loop over header lines computes the header list or the first error |
| `RequestHead.RequestHeadParser.Push` | src/protocol/http.rs:241-263 | the object's answer is the reading of everything pushed so far; a completed parser refuses more |
| `RequestHead.RequestHeadParser.TakeRemainder` | src/protocol/http.rs:266-268 | the remainder is handed over once |
| `RequestHeadWire.HeadRoundTrip` | src/protocol/http.rs:321-446 | a written head parses to its own method, target and headers; only the target and the framing fields can still be at fault |
| `RequestHeadWire.RequestRoundTrip` | src/protocol/http.rs:241-263 | a written head, the blank line and any body are read as that head and that remainder |
| `SigV4.NormalizeHeaderValue` | src/protocol/sigv4.rs:787-805 | the loop squeezes runs of white space and trims the ends |
| `SigV4.NormalizeIsWords` | src/protocol/sigv4.rs:787-805 | a normalized value is the words of the value with single spaces between them |
| `SigV4.CanonicalValueOf` | src/protocol/sigv4.rs:494-500 | the values of a header are normalized one by one and joined with commas |
| `SigV4.BuildCanonicalHeaders` | src/protocol/sigv4.rs:483-504 | the loop writes one line per signed header, in order, or fails on an absent one |
| `SigV4.SignedHeadersExact` | src/protocol/sigv4.rs:571-582 | the parsed list is exactly the strictly ascending token list that spells the value |
| `SigV4.LinesSplit` | src/protocol/sigv4.rs:506-531 | an accepted request has a canonical request, and its lines can be recovered from it |
| `SigV4.Unambiguous` | src/protocol/sigv4.rs:506-531 | accepted requests with equal canonical bytes agree on method, canonical path and query, signed list, canonical value of every signed header, and payload literal |
| `SigV4.SignedDeterminesRouted` | src/protocol/sigv4.rs:506-531 | and therefore on bucket and key (or routing error), on the mode of authentication, and on the multiset of decoded parameters, for a presigned request without the signature |
| `SigV4.SignedDeterminesFields` | src/protocol/sigv4.rs:533-551 | and on which fields of the x-amz- family and which host are present, and on the canonical value of each |
| `SigV4.SameMode` | src/s3/service.rs:669-678 | the algorithm parameter is signed, so a presigned request never has the canonical bytes of a header-signed one |
| `SigV4.ParsedAccepted` | src/protocol/sigv4.rs:308-392 | every parsed head that gets as far as its canonical request satisfies what these results assume |
| `Civil.YearRecovered` | src/s3/xml.rs:363-375 | the leap-day corrections recover the year of the era from the day of the era |
| `Civil.CivilRoundTrip` | src/s3/xml.rs:363-375 | reading a valid date back from its day number gives the date, for every year |
| `Civil.DaysRoundTrip` | src/protocol/sigv4.rs:680-692 | every day number is read as a valid date whose day number it is |
| `Civil.NextDayCounts` | src/protocol/sigv4.rs:680-702 | the next date has the next day number: the formula counts days |
| `Civil.DaysAscend` | src/protocol/sigv4.rs:680-692 | later dates have larger day numbers |
| `Civil.TimestampsAscend` | src/protocol/sigv4.rs:648-678 | valid timestamps that are later as text are later in time |
| `Civil.TimestampFits` | src/protocol/sigv4.rs:675-677 | the checked arithmetic never overflows |
| `Utf8.TextRoundTrip` | src/s3/service.rs:2683-2688 | text survives the trip through its UTF-8 bytes |
| `Utf8.BytesRoundTrip` | src/s3/service.rs:2683-2688 | well-formed bytes are the bytes of exactly the text they decode to |
| `MetadataJson.StringRead` | src/s3/service.rs:2593-2692 | a written string is read back, through quotes, backslashes, controls and non-ASCII, and reading stops right after it |
| `MetadataJson.ObjectRoundTrip` | src/s3/service.rs:2568-2692 | every list of members is read back exactly, in order, from the text written for it |
| `MetadataJson.AppendString` | src/s3/service.rs:2593-2610 | the character loop writes the string form |
| `MetadataJson.WriteMetadata` | src/s3/service.rs:2568-2579 | the member loop writes the object form |
| `MetadataJson.ParseStringAt` | src/s3/service.rs:2650-2692 | the index loop reads the string grammar and returns the position after it |
| `MetadataJson.ParseMemberAt` | src/s3/service.rs:2629-2642 | a member is read with the white space around its parts |
| `MetadataJson.SkipSpaceAt` | src/s3/service.rs:2694-2699 | white space is skipped and nothing else |
| `MetadataJson.ParseMetadata` | src/s3/service.rs:2612-2648 | the member loop reads the object grammar; anything malformed yields no members |

## Left out

- SQL text, SPI and the semantics of the stored functions: tables are maps and calls are a log with arbitrary outcomes
- SHA-256, MD5, SHA-1, CRC, HMAC and base64 themselves: arbitrary functions of the bytes fed so far
- Sockets, wait-event sets, clocks and idle periods: only the events they produce
- Panics and the recovery from them, including `force_internal_error`: the statements are about runs without panics
- Pushing into a decoder or parser after it has reported an error: callers drop it
- Credential lookup, scope and clock-skew validation, and route classification: one arbitrary verdict per head
- The attributes of the authorization field: its list of signed headers enters `ToVerify` as an argument
- Response heads, XML and error bodies, range and conditional requests: plain output or one-branch facts
- Latency buckets and byte counters of the metrics: independent additions
- The launcher, the garbage collector and the configuration: process handles and rows around short loops
- Building the metadata map from request headers: a filter in front of the writer modelled here
- Connections are followed one at a time in `HttpConnection`; the loop over many of them is in `Reactor`, where an exchange is only its stage and operation
- Reactor.Worker.Drive: the byte counts of reads and writes are not modelled, only whether they complete
- Reactor.Worker.AbandonConnections: the abort of each session is in `HttpConnection.Connection.Abandon`, one connection at a time
- Reactor.Worker.FlushMetrics: a delta dropped because the database is read-only counts as written
- HttpExchange.Exchange.Ingest: the head parser is represented by the bytes it has received; `RequestHeadParser` is proved against the same reading
- UploadService.Service.PushBody: the lease clock is an argument that says whether a renewal is due
- UploadService.Service.HandleHead: operations without a body make one database call of unspecified content
- MetadataJson.ObjectRoundTrip: the map is the list of its members in key order; that the map iterates in key order is its library's promise
