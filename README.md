# go-asn1-tar2multipart, modelled in Dafny

A model of the core of `tar2mpart.go`: the program reads a tar archive,
maps each entry's header onto a fixed record, keeps at most `limit` bytes of
each body, DER-encodes header and content, and writes every encoding as one
part of a multi-part body with the header `Content-Type: application/asn1-der`.
The model has three parts, the same as the source, plus the composition:

- `Schema` and `Headers`: the header mapper. `Schema` holds the two
  enumerations with their tags (`FileType` 0x00/0x10/0x12/0x15, `Format`
  0x00/0x10/0x20/0x30), the `FileHeader` and `TarItemAsn1` records and Go's
  errors. `Headers` holds the `tar.Header` fields that the source reads, with
  archive/tar's typeflag bytes (`'0'`, `'2'`, `'5'`) and format bits (USTAR 2,
  PAX 4, GNU 8). `ToFileType`, `TarFormat`, `ToHeader` and the getters are
  functions.
- `Reader`: the entry reader. `TarReader` is a class whose `pending` field
  holds the `Next` results the archive has still to give. `ToItems` is the
  pull loop as a method. It uses one reused `ByteBuffer` and a limited copy of
  each body. The iterator's `yield` is a consumer function over the pairs it
  has received so far. The method is proved against the functions `Items`
  (everything the archive yields), `StopCount`/`Emitted` (what the consumer
  lets through) and `Pulls` (how many `Next` results are consumed).
- `Multipart`: the part writer. `Output` is the stream: the parts written so
  far and how often the writer was closed. `MultipartWriter.WriteItems` is the
  range loop as a method, proved against `WriteItemsSpec`. `Writer.WriteAll`
  closes in every case and joins the two errors as `errors.Join` does.
- `Pipeline`: `Convert` runs `ToItems` with the writer's loop as its consumer,
  then `WriteAll`. It also holds lemmas about the composition, the default
  limit of 1048576 bytes, and concrete scenarios: a small file, a read error
  after one entry, and a 2,000,000-byte entry.

Collaborators the source cannot see are parameters:

- the DER encoder (`asn1.Marshal`), an `Encoder` function that may fail;
- the archive parser, a sequence of `Next` results;
- the output stream, as `Sink` oracles indexed by part number (part creation,
  body write, close);
- the context, an oracle giving `ctx.Err()` on each iteration.

## Model

| member | source | states |
|---|---|---|
| Schema.TagsDistinct | tar2mpart.go:19-33 | No two file types share a tag, and no two formats share one. |
| Headers.TarHeader.ToFileType | tar2mpart.go:62-73 | Regular iff typeflag '0', symlink iff '2', directory iff '5', Unspecified iff any other typeflag. |
| Headers.TarHeader.TarFormat | tar2mpart.go:89-100 | USTAR, PAX or GNU iff the format is exactly that value; every other value, combinations included, gives Unspecified. |
| Headers.TarHeader.ToHeader | tar2mpart.go:75-116 | The record's kind and format are the mapped enumerations. Name, link name, size, mode, uid, gid, user and group names and modification time are copied unchanged, without validation. |
| Headers.HeaderTags | tar2mpart.go:19-33 | Every mapped header carries one of the defined tags. The tag is 0x00 exactly for unknown typeflags and unknown formats. |
| Reader.LimitedCopy | tar2mpart.go:145-155 | Copies exactly the first min(len(body), limit) bytes, and none when limit <= 0. A body failure is reported iff it comes before the limit. |
| Reader.ItemOf | tar2mpart.go:136-163 | A Next error, or a copy error, gives the zero item with that error. Otherwise the item is the mapped header with the truncated body. |
| Reader.Items | tar2mpart.go:131-170 | At most one pair per Next result. |
| Reader.ItemAt | tar2mpart.go:135-167 | The i-th pair comes from the i-th Next result, which is not end of archive, so pairs keep archive order. Only the last pair can carry an error. |
| Reader.ItemsEnd | tar2mpart.go:136-139 | When the pairs stop without an error, the next Next result was end of archive, so EOF ends quietly. |
| Reader.TruncationLaw | tar2mpart.go:145-163 | A successful item holds exactly the first min(len(body), limit) bytes of its entry's body (none if limit <= 0), and its header keeps the archive's size. |
| Reader.StopCount | tar2mpart.go:165-167 | The consumer receives pairs up to and including the first prefix it declines, or all of them. It accepted every shorter prefix. |
| Reader.Emitted | tar2mpart.go:165-167 | The pairs the consumer actually receives: the yielded pairs up to and including the first prefix it declines (facts in EmittedPrefix). |
| Reader.EmittedPrefix | tar2mpart.go:165-167 | What the consumer receives is a prefix of the yielded pairs. It accepted every shorter prefix, and it declined the last one unless it received them all. |
| Reader.Pulls | tar2mpart.go:135-167 | The number of Next results consumed is never more than the archive has. |
| Reader.EndsAtEof | tar2mpart.go:136-139 | At end of archive the consumer has received every pair, and the EOF result itself is consumed. |
| Reader.EndsAfter | tar2mpart.go:140-155 | An error pair, or a declined pair, is the last one yielded. Nothing more of the archive is read. |
| Reader.StopsWhenConsumerStops | tar2mpart.go:165-167 | When the consumer declines the (k+1)-th pair, a success, exactly k+1 pairs are yielded and k+1 entries read. |
| Reader.ByteBuffer.Reset | tar2mpart.go:145 | The buffer is empty. |
| Reader.ByteBuffer.Write | tar2mpart.go:151 | The copied bytes are appended to the buffer's contents. |
| Reader.ByteBuffer.Bytes | tar2mpart.go:162 | The buffer's current contents, which become the item's content. |
| Reader.TarReader.Next | tar2mpart.go:136 | Gives the archive's next result and consumes it. Past the last one it keeps reporting end of archive. |
| Reader.TarReader.PullEntry | tar2mpart.go:136-163 | One turn of the loop gives None exactly at end of archive, and otherwise ItemOf of the next result. After an entry, the buffer holds only that entry's copied bytes. |
| Reader.TarReader.ToItems | tar2mpart.go:131-170 | Yields exactly Emitted(Items(archive), consumer), and the archive is left advanced by exactly Pulls results. |
| Multipart.SetHeader | tar2mpart.go:180 | The key ends up with the single given value. The key set gains exactly that key. |
| Multipart.SetHeaderKeepsOthers | tar2mpart.go:180 | Every other key keeps its values. |
| Multipart.CreateAsn1Header | tar2mpart.go:174-182 | The header has exactly one key, Content-Type, with exactly one value, application/asn1-der. |
| Multipart.Deliver | tar2mpart.go:184-192 | WriteAsn1Bytes on part number `index`: refused with CreatePart's error; broken, with the bytes the stream took, on a body write error; otherwise written whole. |
| Multipart.Process | tar2mpart.go:199-216 | One iteration in the source's order: ctx.Err(), then the pair's error, then the encoder's error, then Deliver on the encoding. |
| Multipart.Verdicts | tar2mpart.go:198-218 | The verdict each pair would get if the loop reached it: the k-th pair on iteration k, with base + k parts already written. |
| Multipart.Collect | tar2mpart.go:198-219 | The loop over a run of verdicts: parts accumulate while items are written whole, and the first other verdict ends it with its error. At most one part per verdict. |
| Multipart.Run | tar2mpart.go:194-220 | The loop from iteration k: the k-th pair's verdict, and the rest of the loop only if that item was written whole. |
| Multipart.WriteItemsSpec | tar2mpart.go:194-220 | The loop from iteration 0 on an output that already holds `base` parts: the parts it adds and the error it returns. |
| Multipart.RunIsCollect | tar2mpart.go:194-220 | The loop from iteration k equals Collect over the verdicts from k on, which ties WriteItemsSpec to the lemmas about Collect. |
| Multipart.AllWritten | tar2mpart.go:198-219 | No error iff every item is written whole. Then there is exactly one part per item, in input order, each with the content-type header and the item's DER bytes. |
| Multipart.FirstFailure | tar2mpart.go:198-217 | At the first item not written whole, the result is its error. The parts are those of the earlier items in order, plus a part for that item only if its body write failed. |
| Multipart.CancellationFirst | tar2mpart.go:199-203 | Cancellation seen after f whole parts gives ctx.Err() and exactly f parts, even when that pair carries an error of its own. |
| Multipart.FailureOrder | tar2mpart.go:199-216 | After cancellation, the checks come in this order: the pair's error, then encoding, then part creation. Each returns its own error, with no part for that item. |
| Multipart.LooksNoFurther | tar2mpart.go:198-217 | The outcome does not depend on anything after the item the loop stops on. |
| Multipart.NonNil | tar2mpart.go:233 | Keeps exactly the non-nil errors. It is empty iff all are nil. |
| Multipart.Join | tar2mpart.go:233 | Nil iff every argument is nil. Otherwise one joined error whose causes are exactly the non-nil arguments. |
| Multipart.JoinTwo | tar2mpart.go:233 | The joins of WriteAll: nil iff both errors are nil. Otherwise the non-nil ones, in order, so neither is dropped. |
| Multipart.MultipartWriter.CreatePart | tar2mpart.go:186 | Either adds one empty part with the given header, or, on the stream's failure, adds nothing. |
| Multipart.MultipartWriter.WriteToPart | tar2mpart.go:190 | Appends the bytes the stream accepts to the last part's body and reports the stream's error. |
| Multipart.MultipartWriter.WriteAsn1Bytes | tar2mpart.go:184-192 | When CreatePart fails, nothing is written and its error is returned. Otherwise one part is written with the content-type header and the bytes the stream took. |
| Multipart.MultipartWriter.WriteItem | tar2mpart.go:199-216 | One iteration: cancellation, then the pair's error, then encoding, then WriteAsn1Bytes. |
| Multipart.MultipartWriter.WriteItems | tar2mpart.go:194-220 | The new parts and the error are exactly those of WriteItemsSpec. Close is not called. |
| Multipart.MultipartWriter.Close | tar2mpart.go:233 | Adds no part, counts one close and reports the stream's close error. |
| Multipart.Writer.WriteAll | tar2mpart.go:222-234 | The parts of WriteItems, Close called exactly once afterwards, and the result is the join of the loop's error with Close's. |
| Pipeline.Streaming | tar2mpart.go:198-219 | With the writer's loop as the iterator's consumer, the outcome is the same as running the writer over every pair the archive would yield. |
| Pipeline.WriterContinues | tar2mpart.go:198-219 | The answer `yield` gets from the range loop after the pairs received so far: true exactly when the loop body wrote the last pair whole and so did not return. |
| Pipeline.DefaultItemSizeLimit | cmd/asn1-tar2multipart/main.go:34-37 | The limit used when none is configured: 1048576 bytes. |
| Pipeline.EndToEnd | tar2mpart.go:131-220 | A run without error gives one part per archive entry up to end of archive, in archive order. Each part's body is the encoding of the mapped header with the truncated body. |
| Pipeline.CancelledAtOnce | tar2mpart.go:199-203 | Cancellation before the first pair writes no part and reports ctx.Err() whenever the archive yields anything. |
| Pipeline.Convert | cmd/asn1-tar2multipart/main.go:39-57 | ToItems feeding WriteAll: the parts and error of WriteAll over the whole archive's pairs, and one close. The archive is read exactly as far as the writer asked. |
| Pipeline.SmallArchive | tar2mpart.go:131-220 | The file "a.txt" holding "hi" gives one part. Its body is the encoding of the regular-file record with content [0x68, 0x69]. |
| Pipeline.ArchiveErrorAfterOneEntry | tar2mpart.go:140-143 | A read error after one entry leaves that entry's part and reports the error, joined with a clean close. |
| Pipeline.LargeEntryTruncated | tar2mpart.go:145-163 | Under the default limit, a 2,000,000-byte entry keeps its first 1,048,576 bytes, and its header still reports 2,000,000. |

The source stops on the first failure, but a part for the stopping item is
not always absent. `CreatePart` succeeds before the body write, so when the
body write fails, that part is already in the stream with whatever bytes the
stream took. `FirstFailure` and `WriteAsn1Bytes` state this. For
cancellation, an upstream error, an encoding error and a `CreatePart`
failure, no part is started (`FailureOrder`, `CancellationFirst`).

## Left out

- DER encoding: `TarItemAsn1.ToDerBytes` is `asn1.Marshal`, a library function whose rules are not in the repository, so it is the `Encoder` parameter. `FileHeader.ToDerBytes` (tar2mpart.go:56) is not used by the pipeline and is not modelled.
- Tar parsing: `tar.Reader.Next` and the reader's byte-level work belong to archive/tar. The archive is given as the sequence of results `Next` returns, with any normalisation the library does already applied. A body is the bytes that arrive before it ends or fails.
- Reader.TarReader.Next: after an error, Go's reader keeps returning that error, while the model's recorded results may go on after a `Failed` one. `ToItems` stops at the first error, so nothing it yields depends on what follows.
- io.Copy and io.LimitedReader are reduced to the rule in `LimitedCopy`. Chunking, buffer growth and the buffer's out-of-memory panic are not modelled.
- Reader.LimitedCopy treats a body failure as coming after all of the body's data. An io.Reader may instead return its last bytes together with an error. When those bytes reach the limit exactly, the source reports that error although `limit` bytes arrived, whereas the model reports none.
- Reader.ByteBuffer: the item's content is a value copied out of the buffer. The source's `buf.Bytes()` instead shares storage with the buffer, which the next entry overwrites. This is harmless for `WriteItems`, which encodes each item before asking for the next. A consumer that kept items around would see the sharing, and that is not modelled.
- Multipart framing: boundary generation, header serialisation and the closing boundary's bytes belong to mime/multipart. The output is a list of parts plus a close count. `MIMEHeader.Set`'s key canonicalisation is not modelled; the key used is already canonical.
- Context: `ctx.Done()` is read once per iteration, as an oracle. There is no concurrency.
- Multipart.Join: in general it states only which causes are kept, not their order; the order is proved only for the two-argument join WriteAll uses (`JoinTwo`). The message format and `Unwrap` of errors.Join are not modelled.
- time.Time is a value that is copied through and only compared; its fields name no calendar or epoch. The tar.Header fields the mapper does not read (access and change times, device numbers, PAX records, and so on) are left out.
- Go's `int` fields (Uid, Gid) are assumed to be 64 bits wide. Nothing in the repository fixes the platform, and on 32-bit platforms Go's `int` is narrower; that case is not modelled.
- Strings are Dafny strings, sequences of Unicode characters, while Go strings are arbitrary bytes. A tar name or user name that is not valid UTF-8 cannot be expressed. This is the input on which encoding the `utf8`-tagged fields (tar2mpart.go:38-49) fails, and that failure is covered only in that the `Encoder` may fail on any item.
- The archive is finite. An archive with no end and its infinite iterator are not modelled.
- Pipeline.Convert runs the reader first, with the writer's decision as its consumer, and then the writer. This gives the same items, parts, errors and archive position as the source's interleaving. The relative order of individual reads and writes on the two streams is not modelled.
- `TarReaderFromStdin` and `ItemsToStdout` bind the standard streams and are not modelled.
- cmd/asn1-tar2multipart/main.go: reading `ENV_TAR_ITEM_SIZE_LIMIT`, `strconv.Atoi`, the `IO`/`Bind`/`Lift`/`Or` combinators and logging are not modelled. Only the default limit of 1048576 is kept, as `Pipeline.DefaultItemSizeLimit`.
- util/compose.go only forwards to a function that is not part of this model.
