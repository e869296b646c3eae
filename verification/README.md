# A verified model of the weather client

The weather client fetches JSON over HTTP and keeps the answers in a two-tier cache: a list in
memory and a directory of files named by the MD5 hash of the key. This project models that client in
Dafny and proves what its parts promise, alone and together.

`dafny verify dfyconfig.toml` checks everything.

## What is modelled

**MD5.** `Rfc1321` is the algorithm as sections 3.1 to 3.5 of RFC 1321 tell it: pad, cut into
64-byte blocks, fold a table-driven compression. `HashMd5` is the program: a context with registers,
a split 29/32-bit byte counter and a 64-byte buffer, all updated in place, 64 unrolled steps, and
rewritten F and G. The invariant of the context says which bytes it has absorbed, so that every way
of feeding a message gives the digest of the whole message. `HashMd5Api` adds the hexadecimal form,
`CachePath` the file names made from it. `Md5OfEmpty` and `Md5OfLetters` follow two messages of the
test suite in section A.5 of RFC 1321 through every step, by the rules of `Md5Trace`, so that each
constant, shift and index of the algorithm is pinned by a value that the standard prints.

**The list.** `ClientList` has nodes with `back` and `front` pointers on the heap. Its representation
invariant ties head, tail, size and every link to a ghost sequence of nodes. Every operation is
stated on that sequence, which says which node objects are in the list, not only which items. A log
of what was freed stands for `free`; `ClientListWalk` says what this log means over whole runs.

**The cache.** `CacheSpec` has set, get and clear as functions of (entries, files), branch by branch.
`ClientCache` is the program on the heap list and a directory object, proved to compute these
functions. `CacheRuns`, `CacheFifo` and `CacheStaleness` are about whole runs of set, get, clear,
clock ticks and process restarts. The central theorem for one process, `CacheFifo.GetFromHistory`,
does not mention entries, files or eviction: it tells from the history of calls alone when a get
returns a value. The central theorem for many processes over one directory,
`CacheStaleness.StalenessBound`, bounds the age of what a get returns. `CacheEffects` is about single
calls: what each leaves in the directory, and what it leaves alone.

**HTTP.** `Chunked` is the chunked decoder with its growing buffer and its 64-bit sums, and
`ChunkedCoding` an encoder (section 7.1 of RFC 9112) that it inverts, on the whole text and on every
prefix of it; `ChunkedErrors` has the error codes. `HttpClient` is reassembly, the header scan and the
body; `HttpResponse` a printer of responses that it inverts. `HttpGet` is the request and the way back.

**Requests.** `Utils` has the form encoder and the cache-key normaliser, `CacheKeys` says when two
inputs share a normal form and how the key format can be read, `Url` is `parse_url` and its inverse.
`WeatherClient` is `makeRequest` over cache and server, `WeatherQueries` the URLs and keys it is called
with, and `KeyReadings` says when a key belongs to one request. `RequestReading` and `QueryReading`
are the other side of the wire: a server that takes the text sent apart into request line, host, path
and form fields. `WholeWay` follows one answer through everything. `KnownAnswers` has values
written out: defaults, clamps and names.

## Hypotheses

- `Env` holds what comes from outside: the file name of a key, and the JSON parser and printer.
  `RoundTrips` says that a value that came out of the parser survives printing and parsing again.
- `NamesDistinct(keys)` says that the keys of a run have different file names. For the names the
  program uses it holds exactly when no two of these keys have the same MD5 digest
  (`CachePath.NamesDistinctWithoutCollision`).
- The clock never goes back, and program and file system read the same one. Calls take time: a set
  makes its entry when it starts and its file when it is done, a get tests at its start and stamps a
  reloaded entry at its end.
- Saving fails only when the value does not parse. Unlinking a file that exists succeeds.
- Memory allocation succeeds up to 2^62 bytes and fails beyond.
- Numbers too wide for their type, which C leaves undefined, are converted as the GNU C library does.

## Where the code differs from what one would expect

These are kept as the code has them, and stated by a lemma.

- A reload stamps the entry with the current time (src/utils/client_cache.c:265), so a value can
  live for twice the ttl. `CacheStaleness.OldExactly` tells for every run when a get returns something
  older than ttl, and `CacheStaleness.StalenessBound` which earlier get had reloaded it.
  `CacheStaleness.StalenessBoundIsTight` reaches the bound.
- A reload does not look at the capacity (src/utils/client_cache.c:259-270), so the list can grow past
  `max_entries`, by one for each reload: `CacheRuns.SizeExactly` tells for every run when it does,
  `CacheRuns.SizeBound` by how much, and `CacheRuns.SizeCanExceedMaximum` is a run.
  Without a restart no reload ever succeeds: `CacheFifo.CacheRefinesFifo`.
- A value that does not parse goes to memory but not to disk, and the next get drops it, unless an
  older file of the key is still there: `CacheFifo.GetAfterSet` gives the exact condition.
- The word "chunked" is looked for up to the end of the response, not of the header line
  (src/network/http_client.c:307): `HttpResponse.ParseRendered` gives the exact outcome,
  `HttpResponse.ChunkedInBodyCounts` a family of responses that are misread.
- A chunked body cut at a chunk boundary is accepted: `ChunkedCoding.DecodePrefix` says exactly which
  prefixes are.
- A chunk size near 2^64 makes position and size wrap around, so that the guard of
  src/network/http_client.c:376 lets the chunk through. If the buffer size wraps around too, memcpy reads
  past the input; if not, the loop that doubles the buffer size goes through 2^63 to 0 and never ends (C
  lets a compiler assume that such a loop ends; the model takes it as it stands).
  `Chunked.WrapExactly` gives the exact conditions, `Chunked.WrapHappens` an input for each.
- Field values with ":country=" or ":region=" in them can share a key with other fields:
  `KeyReadings.KeyBelongsToOne` gives the exact condition, `KeyReadings.TwoPlacesOneKey` two requests.
- Search queries share a key when the first 255 characters of their normal forms agree:
  `WeatherQueries.LongSearchesShareKey`.
- Status codes from 400 to 599 are no failure (src/network/http_client.c:98), so a JSON page that
  comes with one is returned and cached unless it says "success": false: `WholeWay.FailurePageIsCached`.
- `parse_url` cuts the path to 511 characters without an error: `Url.ParseRendered`,
  `WeatherQueries.FullUrlArrives`, `WeatherQueries.SearchUrlArrives`. A port of sixteen digits or more
  is silently the default one: `KnownAnswers.WrittenPort`.

## Model

| member | source | states |
|---|---|---|
| Words.MacrosAgree | src/utils/hash_md5.c:30-34 | the rewritten F and G are the and/or forms of section 3.4, and both bracketings of H are one function |
| Words.ShiftOrIsRotation | src/utils/hash_md5.c:39 | for each of the sixteen shifts in use, shift-left or shift-right is a 32-bit rotation |
| HashMd5.GetReadsBytes | src/utils/hash_md5.c:42-53 | storing word n of a block low-order byte first gives back its bytes 4n to 4n+3 |
| Rfc1321.DigestsMeet | src/utils/hash_md5.c:234-251 | storing the registers loses nothing: two digests are equal if and only if the final registers are |
| HashMd5.Step | src/utils/hash_md5.c:37-40 | one macro step is step i of section 3.4 on the registers as they rotate |
| HashMd5.Round1 | src/utils/hash_md5.c:75-90 | the sixteen unrolled F steps are steps 0 to 15 of the table |
| HashMd5.Round2 | src/utils/hash_md5.c:93-108 | the sixteen G steps are steps 16 to 31 |
| HashMd5.Round3 | src/utils/hash_md5.c:111-126 | the sixteen steps that alternate the two forms of H are steps 32 to 47 |
| HashMd5.Round4 | src/utils/hash_md5.c:129-144 | the sixteen I steps are steps 48 to 63 |
| HashMd5.Block | src/utils/hash_md5.c:69-149 | one pass of the loop is the table-driven compression of the block |
| HashMd5.Md5Ctx.Body | src/utils/hash_md5.c:56-160 | for every positive multiple of 64 the loop ends, leaves the fold of the compression over the blocks in the registers, and returns the end of the data |
| Rfc1321.FoldAppend | src/utils/hash_md5.c:68-152 | folding two aligned texts one after the other is folding their concatenation, so blocks may come in any number of calls |
| HashMd5.CounterAdvances | src/utils/hash_md5.c:176-181 | the masked low part, the carry and the high part together count the bytes modulo 2^61 |
| HashMd5.CounterUsed | src/utils/hash_md5.c:183 | the low six bits of the counter are the length of the unprocessed tail |
| HashMd5.CounterBytes | src/utils/hash_md5.c:223-232 | low part times eight and high part, stored as two words, are the bit length modulo 2^64 in little-endian order |
| HashMd5.Md5Ctx.Init | src/utils/hash_md5.c:162-170 | after it the context has absorbed the empty text |
| HashMd5.Md5Ctx.Count | src/utils/hash_md5.c:176-183 | the counter now stands for the longer text, and the saved value tells how much of the buffer is in use |
| HashMd5.Md5Ctx.Fill | src/utils/hash_md5.c:186-196 | a buffer in use is completed from the data and its block absorbed |
| HashMd5.Md5Ctx.Drain | src/utils/hash_md5.c:198-203 | all full blocks of the data are absorbed, and the rest is kept in the buffer |
| HashMd5.Md5Ctx.Update | src/utils/hash_md5.c:172-204 | the context has absorbed the old text followed by the data, for every length: registers, counter and buffer are those of the longer text |
| HashMd5.PadAt | src/utils/hash_md5.c:209-234 | the padding is 0x80, zeros, and the bit length, and takes one block or two by whether the tail is under 56 bytes |
| HashMd5.Md5Ctx.StartPadding | src/utils/hash_md5.c:209-220 | in both cases the buffer holds the start of the last padded block and everything before it is absorbed |
| HashMd5.Md5Ctx.StoreLength | src/utils/hash_md5.c:223-232 | the last eight bytes of the buffer are the bit length modulo 2^64 |
| HashMd5.Md5Ctx.FinishPadding | src/utils/hash_md5.c:209-234 | the registers are the fold over the whole padded text |
| HashMd5.Md5Ctx.Final | src/utils/hash_md5.c:206-254 | the result is the digest of everything absorbed, the rest of the result array is untouched, and the context is wiped |
| HashMd5Api.HashPieces | src/utils/hash_md5.c:162-254 | init, one update for each piece, final: the digest of the whole message, for every message and every way to cut it |
| Md5OfEmpty.DigestOfEmpty | src/utils/hash_md5.c:56-254 | the digest of the empty message is d41d8cd98f00b204e9800998ecf8427e, step by step (section A.5 of RFC 1321) |
| Md5OfLetters.DigestOfLetters | src/utils/hash_md5.c:56-254 | that of the 62 letters and digits, whose padding takes a second block, is d174ab98d277d9f5a5611c2c9f419d9f |
| HashMd5Api.HashMd5Binary | src/utils/hash_md5.c:260-271 | the digest of the data, or -1 and no change for a null argument |
| HashMd5Api.HashMd5BinaryToString | src/utils/hash_md5.c:273-286 | 32 hexadecimal digits and a NUL, nothing behind them changed; -1 and no change when an argument is null or the buffer short |
| HashMd5Api.HashMd5String | src/utils/hash_md5.c:288-303 | the hexadecimal digest of the data, with the same error returns |
| HashMd5Api.HexRoundTrip | src/utils/hash_md5.c:280-283 | decoding the hexadecimal text gives back the bytes |
| HashMd5Api.HexIsLower | src/utils/hash_md5.c:280-283 | only digits and lower-case letters appear |
| HashMd5Api.HexAt | src/utils/hash_md5.c:280-283 | digits 2i and 2i+1 of the text are the upper and the lower half of byte i, as they stand in "0123456789abcdef" |
| HashMd5Api.HexInjective | src/utils/hash_md5.c:280-283 | different digests have different texts |
| CachePath.GetCacheFilepath | src/utils/client_cache.c:45-58 | the path is the cache directory, the hexadecimal digest of the key, and .json |
| KnownAnswers.EmptyKeyFile | src/utils/client_cache.c:45-58 | the file of the empty key is src/client/cache/d41d8cd98f00b204e9800998ecf8427e.json |
| CachePath.FileNameCollides | src/utils/client_cache.c:45-58 | two keys share a file exactly when their digests are equal, and no key owns README.md |
| CachePath.NamesDistinctWithoutCollision | src/utils/client_cache.c:45-58 | distinct file names on a set of keys is exactly freedom from digest collisions on it |
| ClientList.LinkedList.constructor | src/utils/client_list.c:6-14 | a valid empty list |
| ClientList.LinkedList.GetIndex | src/utils/client_list.c:16-39 | the node at the index whichever end the walk starts from, null past the end |
| ClientList.LinkedList.Append | src/utils/client_list.c:41-62 | one fresh node behind all others, which stay the same objects |
| ClientList.LinkedList.Insert | src/utils/client_list.c:64-95 | one fresh node at the index, or at the end for any index past it |
| ClientList.LinkedList.Remove | src/utils/client_list.c:97-130 | exactly that node is taken out and unlinked, it is freed once, and its item if asked |
| ClientList.LinkedList.Pop | src/utils/client_list.c:132-139 | the node at the index is removed and freed; past the end an error, nothing freed and no change |
| ClientList.LinkedList.Clear | src/utils/client_list.c:141-158 | the list is empty, each node was freed exactly once and in order, and so was each item if asked |
| ClientListWalk.Ahead | src/utils/client_list.c:16-39 | k steps along front from head lead to node k, and off the list after the last: the pointers alone spell out the sequence |
| ClientListWalk.Behind | src/utils/client_list.c:16-39 | k steps along back from tail lead to the k-th node from the end |
| ClientListWalk.Perform | src/utils/client_list.c:41-158 | over any run of insertions, pops and clears no node is freed twice, or while it is in the list |
| ClientList.InsertPop | src/utils/client_list.c:64-139 | popping where one inserted restores the very same nodes |
| ClientCache.ClientCache.constructor | src/utils/client_cache.c:135-151 | an empty cache with the given settings or the defaults for those not positive |
| CacheSpec.CreateSettings | src/utils/client_cache.c:147-148 | positive settings are kept, and others become 50 entries and 300 seconds |
| ClientCache.ClientCache.FindNode | src/utils/client_cache.c:169-176 | the cursor loop stops at the first entry under the key |
| ClientCache.ClientCache.OldestNode | src/utils/client_cache.c:180-195 | the two scans select the first entry with the least creation time |
| ClientCache.ClientCache.DropNode | src/utils/client_cache.c:172-173 | the entry leaves the list and is freed: every entry ever made is in the list or freed, once |
| ClientCache.ClientCache.DropKey | src/utils/client_cache.c:169-176 | the first entry under the key leaves the list and is freed, nothing else changes |
| ClientCache.ClientCache.MakeRoom | src/utils/client_cache.c:178-197 | a full list loses that entry, which is freed, and the directory its file |
| ClientCache.ClientCache.GetFrom | src/utils/client_cache.c:232-256 | at the entry found: dropped with its file when expired, dropped when its file is gone, else its value and no change |
| ClientCache.ClientCache.Set | src/utils/client_cache.c:163-223 | list and directory go where the function of the state takes them, no entry is lost or freed twice; -1 and no change for a null argument; the entry has the time of the call, the file that of its writing |
| ClientCache.ClientCache.Get | src/utils/client_cache.c:225-278 | the same for get and its value, through expiry, a vanished file, a hit, a reload and a miss; an entry that leaves the list is freed once, and only a reload makes one, stamped when it is made |
| ClientCache.ClientCache.Reload | src/utils/client_cache.c:259-277 | what the file holds, if it is fresh and parses, is returned and appended as an entry with the later time at which it is made; else the list stays |
| ClientCache.ClientCache.Clear | src/utils/client_cache.c:280-314 | no entry, and no file but README.md, in whatever order the directory is read; each entry freed once |
| CacheRuns.StepKeepsShape | src/utils/client_cache.c:163-314 | each operation keeps the keys distinct, the list sorted by creation time, and the one ttl |
| CacheRuns.ReachableShape | src/utils/client_cache.c:163-314 | so they are in every reachable state, restarts and foreign files included |
| CacheRuns.ReachableOldestIsHead | src/utils/client_cache.c:178-197 | in every reachable state the eviction scan selects the head, and no other entry has its key |
| CacheRuns.EvictDropsHead | src/utils/client_cache.c:178-197 | eviction from a sorted list is dropping its head |
| CacheRuns.StepSize | src/utils/client_cache.c:178-215 | a set leaves at most max(max_entries, size before), and nothing but a reload makes the list longer otherwise |
| CacheRuns.SizeBound | src/utils/client_cache.c:259-270 | in every reachable state the size is at most max_entries plus the number of reloads so far |
| CacheRuns.SizeExactly | src/utils/client_cache.c:178-270 | in every run, all states keep to max_entries if and only if no get reloads while the list is full |
| CacheRuns.SizeCanExceedMaximum | src/utils/client_cache.c:259-270 | a run of four calls that leaves two entries in a cache of one |
| CacheFifo.SetRefines | src/utils/client_cache.c:163-223 | with the two tiers in step, a set is that of a bounded FIFO map, and they stay in step |
| CacheFifo.GetRefines | src/utils/client_cache.c:225-278 | so is a get, with lazy expiry, and its value |
| CacheFifo.CacheRefinesFifo | src/utils/client_cache.c:163-314 | in one process from an empty directory every run agrees with the FIFO map, state and answers; every file has its entry, no reload succeeds and the size stays within max_entries |
| CacheFifo.GetAfterSet | src/utils/client_cache.c:220-253 | for the next ttl seconds a get returns the value just set exactly when it parses or a file of the key is left |
| CacheFifo.UnboundedExplained | src/utils/client_cache.c:163-223 | without bound and expiry the list is the last set of each key not cleared since, in order, and what stands behind an entry are the keys set after it |
| CacheFifo.LiveWithout | src/utils/client_cache.c:169-176 | dropping expired entries and dropping a key commute |
| CacheFifo.TailWithout | src/utils/client_cache.c:178-197 | dropping a key from the newest entries and making room leaves what the unbounded list would |
| CacheFifo.RunMatches | src/utils/client_cache.c:163-278 | over whole runs the live entries of the FIFO map are the newest max_entries live ones of the unbounded list |
| CacheFifo.GetFromHistory | src/utils/client_cache.c:163-278 | get(k) returns v if and only if v is the last value set for k, no clear came since, fewer than max_entries other keys were set since, and no more than ttl has passed |
| CacheFifo.GetFromCreated | src/utils/client_cache.c:135-278 | the same for a cache created with m and t, in the calls, m and t alone: limit and lifetime are m and t where positive, and else 50 and 300 |
| CacheStaleness.SetStaysSourced | src/utils/client_cache.c:163-223 | after a set every entry and every file still goes back to the call that set it |
| CacheStaleness.GetStaysSourced | src/utils/client_cache.c:225-278 | the same after a get, where a reloaded entry goes back to the set that wrote its file |
| CacheStaleness.TierAges | src/utils/client_cache.c:259-270 | for a key in both tiers, mtime <= created_at <= mtime + ttl, but for the time that a single call takes, on either side |
| CacheStaleness.StalenessBound | src/utils/client_cache.c:60-75 | over all runs with restarts, what get returns is the last value set for the key (or it reformatted); it was written at most ttl ago, or a get in this process reloaded it at most ttl ago, from a file no older than ttl that an earlier process wrote; so it was set at most 2*ttl ago, plus twice the longest time a call takes, and at most ttl before a get that itself reloads |
| CacheStaleness.StalenessFromCreated | src/utils/client_cache.c:135-278 | from creation with t on, a value returned parses as the last one set, and was set at most 2*t ago, or 600 seconds where t is not positive, plus twice the longest time a call takes |
| CacheStaleness.OldExactly | src/utils/client_cache.c:225-278 | in every run, the next get returns a value written more than ttl ago if and only if the key is in memory, its entry is no older than ttl, and its file is |
| CacheStaleness.GetSucceedsExactly | src/utils/client_cache.c:225-278 | in every run, the next get returns a value if and only if there is a file under the key, which then is that of the last set, and the entry, or without one the file, is no older than ttl |
| CacheStaleness.StalenessBoundIsTight | src/utils/client_cache.c:259-270 | a run in which a value is returned 2*ttl after it was set |
| CacheEffects.GetLeaves | src/utils/client_cache.c:225-278 | a get without a value leaves no entry under the key and no file either, unless a young one that does not parse; with a value, the file stays and the value is in memory; no other file changes |
| CacheEffects.ReloadPrints | src/utils/client_cache.c:101-125 | a reload returns the parsed text printed, and appends it under the time of the reload |
| CacheEffects.SetEvicts | src/utils/client_cache.c:163-201 | a set drops the old entry of the key, and of the others one exactly when they fill the list, the oldest |
| CacheEffects.SetLeaves | src/utils/client_cache.c:163-223 | the entry is last, its file is the parsed text printed (untouched when it does not parse), the file of the evicted entry is gone, and no other file changes |
| CacheEffects.ClearSpares | src/utils/client_cache.c:280-313 | a clear leaves no entry and no file but README.md, which stays as it is unless an entry owned it |
| Chunked.ScanLine | src/network/http_client.c:333-337 | the scan stops at the first CRLF, or at the end |
| Chunked.WrapExactly | src/network/http_client.c:376-393 | for every input, decoding goes wrong if and only if some size line on its way makes position plus size exceed 2^64 - 1; at the first such line it reads past the input when buffered bytes plus size plus 1 exceed that too, and never ends when they do not |
| Chunked.WrapHappens | src/network/http_client.c:359-393 | "-1" CRLF reads past the input, "-2" CRLF never ends |
| Chunked.DoublingEnds | src/network/http_client.c:382-384 | from every buffer size that occurs, some number of doublings in 64 bits is enough if and only if at most 2^63 bytes are needed |
| Chunked.Double | src/network/http_client.c:382-384 | the loop ends with the first of these sizes that is enough, or comes to 0 where it stays |
| Chunked.Grow | src/network/http_client.c:381-391 | doubling makes room for the chunk and a NUL, keeps the bytes, and leaves the buffer 1024 long or less than twice what is needed; -8 when memory refuses, and no end when the size is out of reach |
| Chunked.DecodeChunked | src/network/http_client.c:318-417 | for every input up to the largest object, the loop with its growing buffer and 64-bit sums yields the decoded text with a NUL behind it, the error code of the decoder, or the overrun or endless loop; where no size wraps, no other sum does and the buffer always has room, so the last realloc is never taken |
| ChunkedCoding.StrtoulOfLine | src/network/http_client.c:350-365 | a size line that prints n in base 16, with the digits of either case, leading zeros, and with or without an extension, is read as n |
| ChunkedCoding.PrintedIsRead | src/network/http_client.c:359 | the digits of n in base 16, in either case, are read as n |
| ChunkedCoding.StrtoulOfNumber | src/network/http_client.c:358-365 | what strtoul accepts beyond that: blanks, a sign, 0x, and anything behind; a minus sign negates modulo 2^64, and too large a number is 2^64 - 1 |
| ChunkedCoding.DecodeEncode | src/network/http_client.c:318-417 | for every sequence of chunks, each announced by its length printed in base 16, with extensions, with or without the last chunk and anything after it, decoding gives the concatenated data, CRLFs in it included |
| ChunkedCoding.DecodeWritten | src/network/http_client.c:318-417 | for every list of texts, each written as its length in hexadecimal, CRLF, the text, CRLF, and "0" with an empty line at the end, decoding gives the texts concatenated |
| ChunkedCoding.CutPiece | src/network/http_client.c:332-402 | no proper prefix of a chunk is accepted, and below 2^64 it is an error |
| ChunkedCoding.DecodePrefix | src/network/http_client.c:332-402 | a prefix of an encoding is accepted if and only if it ends at a chunk boundary or has the whole zero-size line, and then gives the data up to there |
| ChunkedErrors.NoLineEnd | src/network/http_client.c:339-342 | after any chunks, a rest without CRLF gives -3 |
| ChunkedErrors.EmptyLine | src/network/http_client.c:344-348 | an empty line there gives -4 |
| ChunkedErrors.NoSize | src/network/http_client.c:358-364 | a line that starts with no number gives -6 |
| ChunkedErrors.BadChunk | src/network/http_client.c:376-400 | a size beyond the rest gives -7, and data without CRLF behind it -9 |
| HttpClient.HttpClient.Assemble | src/network/http_client.c:200-223 | the response is the segments one behind the other, as far as memory can hold them |
| HttpClient.ParseHeaders | src/network/http_client.c:278-316 | the line loop yields status, Content-Length and chunked flag of the head, zeros on failure, and stops at the empty line that the scan of the head says |
| HttpClient.HttpClient.ReceiveResponse | src/network/http_client.c:195-276 | result, status and body are those of the concatenation of the segments, overruns and endless loops of the decoder included; on failure body and size stay |
| HttpResponse.StopIsBodyStart | src/network/http_client.c:239-302 | where the header loop stops at an empty line (as the contract of the loop says) is two bytes before where the search for CRLFCRLF lands |
| HttpResponse.TransferEncodingFound | src/network/http_client.c:306 | a line is taken for a Transfer-Encoding header if and only if its first 18 characters are those of the name, each letter small or capital |
| HttpResponse.ContentLengthFound | src/network/http_client.c:304 | the same for Content-Length and 15 |
| HttpResponse.Refused | src/network/http_client.c:200-241 | a connection that breaks off, one that closes without a byte, a text without an empty line and one that does not start with HTTP/ are failures |
| HttpResponse.ScanRenderedStatus | src/network/http_client.c:289-291 | the status of every well-formed status line is its code, converted to an int |
| KnownAnswers.StatusIs | src/network/http_client.c:289-291 | a code written in decimal is that number, up to 2^31 - 1 |
| KnownAnswers.Ints | src/network/http_client.c:164 | beyond that a number is clamped to 64 bits, and of those the low 32 are kept |
| HttpResponse.ParseRendered | src/network/http_client.c:195-316 | every rendered response gives its code, and its body as it stands or decoded (or the failure, overrun or endless loop of that), exactly by whether "chunked" appears from a Transfer-Encoding header on |
| HttpResponse.LengthRendered | src/network/http_client.c:304-305 | the last Content-Length line of a head counts, clamped at 2^64 - 1 |
| HttpResponse.IdentityBody | src/network/http_client.c:263-275 | without a Transfer-Encoding header code and exact body are recovered |
| HttpResponse.ChunkedBody | src/network/http_client.c:249-262 | with one that says chunked, its name in letters of either case, and a chunked body, code and data are recovered |
| HttpResponse.UsualChunkedBody | src/network/http_client.c:249-262 | with the header "Transfer-Encoding: chunked" and any texts written as chunks, code and concatenated texts are recovered |
| HttpResponse.ChunkedInBodyCounts | src/network/http_client.c:306-309 | "chunked" in the body behind a last header of that name makes the body be decoded, and lost if it is not in chunks |
| Utils.UrlEncode | src/utils/utils.c:10-38 | the loop writes the encoding and a NUL within its buffer, or yields null for null |
| Utils.FormRoundTrip | src/utils/utils.c:23-34 | form decoding gives back every NUL-free text |
| Utils.EncodedInjective | src/utils/utils.c:23-34 | different texts have different encodings |
| Utils.EncodedIsSafe | src/utils/utils.c:26-32 | only unreserved characters (section 2.3 of RFC 3986), plus and percent come out |
| Utils.EncodedOne | src/utils/utils.c:23-34 | letters, digits and -_.~ stay, a blank becomes a plus, any other byte a percent sign and its two upper-case digits |
| Utils.EncodedEach | src/utils/utils.c:23-34 | the encoding of two texts together is their encodings together |
| Utils.UnreservedStay | src/utils/utils.c:26-28 | a text of unreserved characters is its own encoding |
| Utils.NormalizeStringForCache | src/utils/utils.c:89-117 | the loop with its separator flag writes the lower-cased words joined by underscores, cut to size, and a NUL; nothing is written for a null argument or size 0 |
| Utils.RawIsJoin | src/utils/utils.c:96-112 | uncut, one pass with one bit of state is splitting at separators, lower-casing and joining |
| Utils.RawNormalizes | src/utils/utils.c:94-116 | stopping the pass at the size and dropping a last underscore is cutting the joined words and dropping one |
| Utils.SepIs | src/utils/utils.c:98 | the separators are blank, tab, plus and underscore |
| Utils.LowerIs | src/utils/utils.c:105-109 | the 26 capitals become the small letters, every other character stays |
| Utils.WordsKeepLetters | src/utils/utils.c:96-112 | the words hold every character that is no separator, in order and in lower case, and nothing else |
| CacheKeys.NormalizedIsCanonical | src/utils/utils.c:89-117 | the result fits, has no upper case, and only single inner underscores as separators |
| CacheKeys.NormalizeIdempotent | src/utils/utils.c:89-117 | normalising twice is normalising once, truncated or not |
| CacheKeys.WordsOfJoin | src/utils/utils.c:89-117 | the words of a joined word list are the list |
| CacheKeys.SameNormalForm | src/utils/utils.c:89-117 | two inputs that fit normalise alike if and only if their lower-cased word lists agree |
| CacheKeys.KeyDeterminesFields | src/api/weather_client.cpp:217-222 | as a format, over arbitrary texts in the three places: a key has one reading if and only if ":country=" occurs in neither city nor country and ":region=" in neither country nor region |
| CacheKeys.ColonFreeFields | src/api/weather_client.cpp:217-222 | fields without a colon are unambiguous |
| KeyReadings.NormalFormIsFixed | src/utils/utils.c:89-117 | a text is left as it is if and only if it fits, is canonical, and ends in no separator |
| KeyReadings.ReadingsAreTriples | src/api/weather_client.cpp:200-222 | the places where the marks of a key can stand, with trimmed parts of admitted length between them, are exactly the triples of normal forms that give the key |
| KeyReadings.KeyBelongsToOne | src/api/weather_client.cpp:200-222 | for every request: no request with other normalised fields has its key, if and only if its marks are the only ones that cut it into a city of at most 100 and a country and region of at most 255 characters, none with an underscore at an end |
| KeyReadings.KeysCollide | src/api/weather_client.cpp:200-222 | a family of pairs of requests with different fields and one key |
| KeyReadings.TwoPlacesOneKey | src/api/weather_client.cpp:200-222 | city "a:country=b" and city "a" in country "b:country=" share a key |
| Url.ParseUrlInPlace | src/network/http_client.c:122-174 | the pointer scans find host, port and path of the specification, or -1 |
| Url.DecimalRoundTrip | src/network/http_client.c:161-165 | reading a written port number gives it back |
| Url.ParseRendered | src/network/http_client.c:122-174 | host, port (or the default of the scheme) and path are recovered from every rendered URL, the path exactly when it has at most 511 characters |
| KnownAnswers.DefaultPorts | src/network/http_client.c:122-174 | without a port it is 80, for https 443; without a path it is / |
| KnownAnswers.WrittenPort | src/network/http_client.c:153-166 | a written port is kept up to 2^31 - 1, and from sixteen digits on it is 80 |
| WeatherClient.WeatherClient.Request | src/api/weather_client.cpp:85-146 | cache, directory and outcome are those of the request function, and the server is asked only on a miss |
| WeatherClient.ApiErrorExactly | src/api/weather_client.cpp:123-126 | a reply is refused if and only if it is an object whose first field named "success" is the boolean false |
| WeatherClient.MissOutcome | src/api/weather_client.cpp:99-146 | on a miss, for every reply: an exception and nothing stored, or the value, with the text in memory and its parsed form on disk |
| WeatherClient.HitOutcome | src/api/weather_client.cpp:85-97 | a cached text that parses is the answer whatever the server would say |
| WeatherClient.SecondAskHits | src/api/weather_client.cpp:85-143 | an answer from the server is what the same request gives for ttl seconds after it was stored, from memory, whatever the server would say |
| WeatherClient.SessionShape | src/api/weather_client.cpp:85-146 | in every session of requests, clears, waits and restarts the keys in memory stay distinct and the list sorted |
| WeatherClient.AnswerIsKept | src/api/weather_client.cpp:85-143 | so in every session an answer from the server is good for ttl seconds |
| WeatherClient.AnswerIsKeptFiveMinutes | src/api/weather_client.cpp:29-40 | with the cache as the client creates it, for 300 seconds |
| WeatherClient.GetStaysClean | src/utils/client_cache.c:225-278 | reading keeps everything cached clean, and what is read is clean |
| WeatherClient.SetStaysClean | src/utils/client_cache.c:163-223 | storing a clean body keeps everything cached clean |
| WeatherClient.NoErrorIsCached | src/api/weather_client.cpp:85-146 | over every run of requests, clears, waits and restarts, every cached text is, up to formatting, a body the server returned under that key, it parses and its first field named "success", if any, is not the boolean false; so every answer is |
| WeatherQueries.CityUrlArrives | src/api/weather_client.cpp:166-182 | the path of a valid city has at most 317 characters, survives parse_url uncut, and its query decodes to the city |
| WeatherQueries.FullUrlArrives | src/api/weather_client.cpp:178-198 | with country and region host, port and path survive if and only if the path has at most 511 characters |
| WeatherQueries.PathDeterminesRequest | src/api/weather_client.cpp:178-198 | two requests have the same path if and only if city, country and region agree, absent and empty counting as one |
| WeatherQueries.SamePathSameKey | src/api/weather_client.cpp:178-222 | requests with the same path share a cache key |
| WeatherQueries.CityKeyText | src/api/weather_client.cpp:200-222 | the key is weather:city=, :country= and :region= with the three fields normalised to 255 characters |
| WeatherQueries.SharedKey | src/api/weather_client.cpp:200-222 | for fields without a colon, two requests share a key if and only if all three normalise alike |
| WeatherQueries.CitiesShareKey | src/api/weather_client.cpp:200-222 | two valid city names share a key if and only if their lower-cased words agree |
| WeatherQueries.SearchUrlArrives | src/api/weather_client.cpp:226-239 | the path of a search survives if and only if it has at most 511 characters, which up to 164 in the query it has, and decodes to the query |
| WeatherQueries.SearchKeys | src/api/weather_client.cpp:241-251 | two searches share a key if and only if they normalise alike, and none shares one with a city |
| WeatherQueries.SearchKeyText | src/api/weather_client.cpp:242-250 | the key of a search is cities:query= and the normalised query |
| WeatherQueries.LongSearchesShareKey | src/api/weather_client.cpp:241-251 | a query whose normal form fills the buffer shares its key with every longer one that starts with it |
| HttpGet.RequestFits | src/network/http_client.c:176-190 | the request for every URL that parses fits its buffer, so send_request never fails for its length |
| RequestReading.RequestIsRead | src/network/http_client.c:176-192 | for every path without blank and CR and host without CR, a server finds in the text sent one GET request of HTTP/1.1 with this target and this Host |
| QueryReading.CityTargetIsRead | src/api/weather_client.cpp:178-198 | for all texts, the path splits at ?, & and = into /v1/weather and the fields city, country and region, the latter two where given, and each value decodes to the text |
| QueryReading.SearchTargetIsRead | src/api/weather_client.cpp:236-238 | that of a search into /v1/cities and the field query |
| QueryReading.CityRequestIsRead | src/api/weather_client.cpp:178-224 | from arguments to server: when the path fits its 511 characters, the text sent for the URL is read as a GET request to the host for /v1/weather with these fields |
| QueryReading.SearchRequestIsRead | src/api/weather_client.cpp:236-251 | the same for a search |
| HttpGet.Fetch | src/network/http_client.c:53-108 | success (a status from 200 to 599), status and body, and the request sent, for every URL, connection and arrival, overruns and endless loops included |
| WholeWay.CarriedArrives | src/network/http_client.c:195-276 | a text carried as a plain body or in chunks arrives, whatever the segments, if memory can hold the response |
| WholeWay.CityAnswerArrives | src/api/weather_client.cpp:85-224 | the whole way, in every session: the text sent to a host without CR is read there as a GET request for "/v1/weather" with the city as its one field, the caller gets the value of the text the response carries, and gets it again for ttl seconds without the server |
| WholeWay.FailurePageIsCached | src/network/http_client.c:98-105 | a JSON text without an API error that comes with a code from 400 to 599 is answered and cached like any other |

## Left out

- Sockets, name lookup, select and timeouts (src/network/client_tcp.c): a connection is a list of received segments that ends in a close or an error.
- The JSON library: parsing and printing are parameters, its limits and error texts are not modelled.
- The file system: no failed or partial write, permissions, long paths, directories or links; a file is a text and a time.
- Allocation failure up to 2^62 bytes: the branches for it are absent.
- Null receivers: a null list or cache is not modelled; null keys, values and buffers are.
- That the body of an earlier response is not freed when a new one replaces it.
- What a program does after reading past its input: the model stops there.
- When a get succeeds is told from the history of calls alone for one process only; across restarts it is told from the entry and the file of the key.
- ClientCache.ClientCache.OldestNode: entries are values, so the second scan compares entries where the program compares pointers; the index it finds is stated.
- ClientCache.ClientCache.Clear: the directory holds regular files only.
- HashMd5.Get: the word load through a cast pointer is the little-endian load; the block cache of the portable branch is not modelled.
- MD5 collision resistance: distinct names are a hypothesis on the keys of a run.
- list and cache disposal (linked_list_dispose, client_cache_destroy): a clear and a free.
- getCurrentWeather and the latitude and longitude checks: their difficulty is the formatting of floating point numbers.
- getHomepage and echo: the same request path with constant keys, or without the cache.
- string_trim, string_duplicate, get_current_time_ms, the command line and the command classes: easy or user interface.
- C strings are sequences of characters below 256; the terminating NUL is modelled where a function writes it or stops at it.
