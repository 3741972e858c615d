# A verified model of HydrogenHTTPD

HydrogenHTTPD is a small C++ web server with a Python tool for its token file. This project models the parts of it in which a
concurrent, cached, streaming or duplicated form has to agree with something simpler, and proves that agreement for every input,
every run and every interleaving. All line numbers refer to the repository.

Code that changes state step by step is modelled by classes and by methods with loops. Each such method is proved equal to a
specification function, and the properties are proved about that function. Concurrent components are also modelled as transition
systems (one step per lock section or atomic update) whose steps the methods are proved to be.

| files | component |
|---|---|
| `CacheEviction.dfy`, `CacheProtocol.dfy`, `CacheAccounting.dfy`, `CacheFreshness.dfy`, `StaticFileCache.dfy` | sharded static file cache |
| `ThreadPool.dfy` | bounded thread pool |
| `Text.dfy`, `HttpParsers.dfy`, `HttpMeaning.dfy`, `StrictHttp.dfy`, `HttpFraming.dfy`, `HttpServed.dfy` | request readers and the two request parsers |
| `UploadNames.dfy`, `Multipart.dfy` | upload file names and the two multipart parsers |
| `RateLimiter.dfy` | sharded rate limiter |
| `AuditLog.dfy`, `AccessLog.dfy`, `AccessLogOrder.dfy`, `AccessLogCallers.dfy` | the two logs that have a protocol |
| `FastCgi.dfy` | FastCGI framing |
| `Sha256.dfy`, `Sha256Constants.dfy`, `Sha256KnownAnswer.dfy`, `Hex.dfy` | SHA-256, its constants and a known digest |
| `Auth.dfy`, `AuthRuntimeStore.dfy` | token decisions and the hot-reloading token store |
| `TokenFile.dfy`, `SecretsFile.dfy` | the token file, as the Python tool and as the server see it |
| `Basics.dfy` | shared vocabulary |

## What the code does not do

Some properties one would expect are false of the code. Each is given with an input at which it fails and with the exact
condition under which it holds.

- **Cache.** A file larger than a shard's share of `maxBytes` but not larger than `maxBytes` is inserted and then evicted, after
  everything else in its shard (`CacheAccounting.LargeFileEmptiesShard`). A new entry survives if and only if it fits the
  shard's byte budget (`CacheEviction.NewEntryGoesOnlyIfTooBig`, `CacheAccounting.InsertLeavesLongestRun`).
- **Rate limiter.** Cleanup is invisible if and only if clock readings are at most 120 seconds out of order
  (`RateLimiterModel.InvisibleIffAtMost120Seconds`); one nanosecond more and a call passes that the plain counter refuses
  (`RateLimiterModel.CleanupShowsBeyond120Seconds`).
- **Access log.** A concurrent `flushAccess` can put a later line before an earlier one
  (`AccessLogProtocol.ConcurrentFlushReorders`). The lines are in order if and only if no batch is written while one taken earlier
  is still unwritten (`AccessLogOrder.InOrderIffNoOvertaking`). A caller cannot see what the writer holds. What is left to a
  single caller is not to flush after its second line: then, and only then, the order is safe from the writer
  (`AccessLogCallers.InOrderIffFlushesEarly`). With several callers no line may be logged during a flush either
  (`AccessLogCallers.EarlyApartFlushesKeepOrder`, `AccessLogCallers.LineDuringFlushReorders`). In the server itself only the
  destructor flushes (src/Logger.cpp:60), so this concerns the public interface of the logger.
- **Strict parser.** `bodyOffset + len` is computed in `std::size_t`. If it wraps, a complete request with the largest length and no
  body is accepted (`HttpFraming.WrappedLengthPasses`); the body is right if and only if it does not wrap
  (`HttpFraming.BodyIsExactIffNoWrap`). This is a latent defect of the parser's interface: the configuration loader refuses body
  limits above 64 MiB (src/Config.cpp:150), and below 2^64 in all the body is always right (`HttpFraming.BodyIsExact`).
- **Request reader.** The loop that looks for the length alone gives up at a content-length line without a value, where the
  strict parser goes on. A request with such a line before the real one is accepted by the strict parser with its body and never
  served (`HttpServed.EmptyLengthIsRefused`). What the strict parser accepts and the request limit has room for is served if and
  only if there is no such line or no body (`HttpServed.ServedIff`).
- **Multipart, contents.** The line parser drops the CR of every CRLF inside a part (`MultipartDifferences.FilesWithCrLfDiffer`),
  and it takes any line of a file that reads like a delimiter for one, where the buffer parser needs CRLF before it
  (`MultipartDifferences.FinalLineInFileDiffers`, `MultipartDifferences.SecondFileInFile`). For bodies encoded without preamble
  from parts in which the buffer parser sees no delimiter and whose fields have no delimiter line: where both parsers accept,
  their results are equal if and only if no file contains CRLF and none contains a delimiter line
  (`MultipartRoundTrip.AcceptedAlikeIff`).
- **Multipart, preamble.** Text before the first delimiter is skipped by the buffer parser and refused by the line parser
  (`MultipartRoundTrip.PreambleDiffers`, `MultipartDifferences.EmptyLineBeforeDiffers`).
- **Multipart, limits.** Only the line parser limits parts without a disposition header
  (`MultipartDifferences.UnnamedPartDiffers`), and only the buffer parser counts the dropped CRs
  (`MultipartDifferences.FieldWithCrLfDiffers`). `MultipartRoundTrip.VerdictsAgreeIff` says exactly when the verdicts agree on
  bodies encoded without preamble from parts in which neither parser sees a delimiter.
- **Token store.** The constructor loads the file before it reads its write time. A token that is revoked between the two is
  still allowed after any number of refreshes (`AuthStoreModel.RevocationIsMissed`). The store ends with current rules if and only
  if some refresh was forced, saw another write time or found no file (`AuthStoreModel.MissedWriteStaysMissed`). `refresh` reads
  the write time first and has no such gap (`AuthStoreModel.RunsAreUpToDate`).
- **Token file.** The server reads what the tool writes if and only if expiries are below 2^63 and the kept lines are blank or
  comments by the server's notion of white space, which is narrower than Python's
  (`TokenFileAcrossLanguages.ServerReadsWhatWasWritten`, `TokenFileAcrossLanguages.LateExpiryIsRefused`,
  `TokenFileAcrossLanguages.PythonBlankIsRefused`).
- **FastCGI.** A length survives the four-byte form if and only if it is below 2^31 (`FastCgiFormat.LengthSurvivesIff`).

## Model

| member | source | states |
|---|---|---|
| CacheAccounting.AccountingHolds | src/StaticFileCache.cpp:39-125 | In every reachable state of every run with any number of threads, `bytes_` and `entries_` equal the totals over all shards plus exactly the in-flight deltas of threads inside an insert section; each shard's `bytes` is off by exactly its holder's delta; nothing is ever negative, so no subtraction underflows |
| CacheAccounting.FreeShardIsExact | src/StaticFileCache.cpp:107-122 | Whenever nobody is inside a shard's insert section, its `bytes` is the sum of its entries' sizes and both shard budgets are met |
| CacheAccounting.InsertLeavesLongestRun | src/StaticFileCache.cpp:104-122 | In every run a finished insert leaves exactly the longest newest-first run, by `lastAccess`, of the shard with the new entry that fits both budgets; the new entry goes if and only if it alone exceeds the byte budget, and then the shard is empty |
| CacheAccounting.LargeFileEmptiesShard | src/StaticFileCache.cpp:100-121 | With two shards and two bytes in all, inserting a file of two bytes empties its shard, whatever was in it |
| CacheAccounting.CapacityHolds | src/StaticFileCache.cpp:104-122 | With no insert in flight the counters are at most `maxEntries + shards - 1` and `maxBytes + shards - 1` |
| CacheAccounting.SectionBalances | src/StaticFileCache.cpp:80-88 | Every single update under an exclusive lock moves the shard, the atomics and the in-flight delta in balance |
| CacheAccounting.ContributionNonNegative | src/StaticFileCache.cpp:51-54 | At every stage of an insert the shard's entries cover what its holder has in flight |
| CacheEviction.EvictOldestKeepsRun | src/StaticFileCache.cpp:42-55 | Evicting the entry with the smallest `lastAccess` from a newest-first run that does not fit keeps a newest-first run and loses no run that fits |
| CacheEviction.LongestNewestRunIsUnique | src/StaticFileCache.cpp:39-58 | The eviction contract determines the remaining entries uniquely |
| CacheEviction.NewEntryGoesOnlyIfTooBig | src/StaticFileCache.cpp:118-121 | The newest entry survives if and only if its own size is within the shard's byte budget; otherwise the shard is emptied |
| CacheFreshness.ReturnedFileWasOnDisk | src/StaticFileCache.cpp:60-125 | In every run in which (mtime, size) identifies content and no file is written during a `get` of it, each body returned was the file's content at some moment during the call or less than the interval before it began, and its ETag is quoted and holds two lower-case hexadecimal numbers around a dash: the size and the write time modulo 2^64 of that version |
| CacheFreshness.RevalidatedIsFresh | src/StaticFileCache.cpp:80-88 | A hit by revalidation serves what is on disk at that very step |
| CacheFreshness.EtagIsInjective | src/StaticFileCache.cpp:32-37 | An ETag of that form belongs to one size and one modification time modulo 2^64 |
| CacheProtocol.EtagNamesVersion | src/StaticFileCache.cpp:32-37 | `makeEtag` gives a text that begins and ends with a double quote; between them two non-empty lower-case hexadecimal texts without leading zeros around one dash, which read back as the size and the write time modulo 2^64 |
| CacheProtocol.ShardBudgets | src/StaticFileCache.cpp:104-105 | Each shard's budget is the smallest positive share with which all shards together reach the whole budget |
| StaticFileCache.StaticFileCache.FindVictim | src/StaticFileCache.cpp:42-49 | The scan returns an entry with the smallest `lastAccess` |
| StaticFileCache.StaticFileCache.EvictIfNeeded | src/StaticFileCache.cpp:39-58 | The loop leaves the longest newest-first run, counts the evicted entries and lowers shard sum and counters by exactly what went |
| StaticFileCache.StaticFileCache.LookupSection | src/StaticFileCache.cpp:65-72 | A hit exactly when the entry is there and `now - validatedAt` is less than the interval |
| StaticFileCache.StaticFileCache.RevalidateSection | src/StaticFileCache.cpp:80-88 | A hit exactly when both stats match; only `validatedAt` of that entry changes |
| StaticFileCache.StaticFileCache.InsertSection | src/StaticFileCache.cpp:107-122 | The shard becomes the longest newest-first run of its entries with the new one; other shards are untouched; the evictions counter grows by exactly what went; the accounting invariant is kept |
| StaticFileCache.StaticFileCache.Get | src/StaticFileCache.cpp:60-125 | All outcomes of one call run alone, in the fields of entry and configuration: hit, revalidated, missing, unreadable, too large to store, inserted, with the counters; and the ETag of whatever it returns, from the disk or from the shard, is quoted and reads back as size and write time |
| StaticFileCache.StaticFileCache.ReadSection | src/StaticFileCache.cpp:90-125 | After a miss: what is read, its ETag, and whether and how it is stored |
| ThreadPoolProtocol.NoLostWakeup | src/ThreadPool.cpp:17-57 | In every reachable state, if some worker sleeps, queued tasks number at most the producers between push and `notify_one` plus the woken workers that have not re-checked |
| ThreadPoolProtocol.QueuedTaskIsPickedUp | src/ThreadPool.cpp:17-57 | Once all producers have notified, a non-empty queue has a worker that is neither asleep nor gone |
| ThreadPoolProtocol.NoSleepAfterNotifyAll | src/ThreadPool.cpp:30-57 | After the shutdown's `notify_all` no worker is ever asleep again |
| ThreadPoolProtocol.TasksConserved | src/ThreadPool.cpp:17-68 | accepted = queued + held by workers + completed; the queue is bounded; `active` is between 0 and the worker count; no task runs twice |
| ThreadPoolProtocol.PopsAreFifo | src/ThreadPool.cpp:52-57 | Tasks leave the queue in acceptance order |
| ThreadPoolProtocol.ShutdownDrains | src/ThreadPool.cpp:30-41 | When the joining `shutdown` has returned, every accepted task has run exactly once |
| ThreadPoolProtocol.StoppingStepsWork | src/ThreadPool.cpp:30-68 | Once stopping, every step but a rejected `enqueue` lowers a measure of the work left |
| ThreadPoolProtocol.ShutdownNeverStuck | src/ThreadPool.cpp:30-57 | Until `shutdown` returns such a step is always possible |
| ThreadPoolProtocol.ShutdownIsBounded | src/ThreadPool.cpp:30-68 | From the moment stopping is set a run has at most that many further steps and accepts nothing |
| ThreadPool.ThreadPool.Create | src/ThreadPool.cpp:4-11 | Zero workers or a zero bound are refused; otherwise the pool starts in the initial state |
| ThreadPool.ThreadPool.EnqueueLocked | src/ThreadPool.cpp:17-25 | Rejected exactly when stopping or full; otherwise the task goes to the end of the queue; one step of the protocol |
| ThreadPool.ThreadPool.CheckLocked | src/ThreadPool.cpp:52-57 | Takes the head of the queue, leaves when stopping and drained, else waits; one step of the protocol |
| ThreadPool.ThreadPool.BeginTask | src/ThreadPool.cpp:59 | Raises `active_`; one step of the protocol |
| ThreadPool.ThreadPool.FinishTask | src/ThreadPool.cpp:60-64 | The function returned or threw: either way the worker goes on |
| ThreadPool.ThreadPool.UncountTask | src/ThreadPool.cpp:65 | Lowers `active_` without underflow; one step of the protocol |
| ThreadPool.ThreadPool.CountTask | src/ThreadPool.cpp:66 | Raises `completed_`; one step of the protocol |
| ThreadPool.ThreadPool.StopLocked | src/ThreadPool.cpp:30-35 | Only the first caller goes on to notify and join |
| HttpParsers.ParsersAgree | src/Server.cpp:175-264 | What the strict parser accepts, the headers-only parser accepts in the header part with the same method, target, version, header map and content length; conversely the strict parser accepts what the other accepts if and only if no value has a control character and the body is not short |
| HttpParsers.HeadsAgree | src/StrictHttp.cpp:48-117 | The same for everything before the body, including the position of the body |
| HttpParsers.ScansAgree | src/StrictHttp.cpp:78-115 | The two header loops agree from every position, the strict one refusing more only for a control character in a value |
| HttpParsers.LinesAgree | src/StrictHttp.cpp:86-113 | The same for one header line, although one parser lower-cases the name before the token test and the other after it |
| StrictHttp.Parse | src/StrictHttp.cpp:48-139 | The parser in the source's form computes `ParseStrict` on every input; what that means is `HttpMeaning.AcceptedIff` and the rows after it |
| StrictHttp.ParseFields | src/StrictHttp.cpp:78-115 | Its header loop computes the recursive scan |
| StrictHttp.TakeLine | src/StrictHttp.cpp:86-113 | One line: continuation, colon, trimming, token and control character tests in the source's order, then the rules of `HttpMeaning.LineStep` |
| StrictHttp.TakeBody | src/StrictHttp.cpp:119-132 | Digits, range of `std::stoull`, body limit, presence in wrapping arithmetic, extraction |
| StrictHttp.CheckToken | src/StrictHttp.cpp:38-46 | Decides the token syntax of section 5.6.2 of RFC 9110 |
| StrictHttp.CheckDigits | src/StrictHttp.cpp:13-19 | Decides whether text is a non-empty digit string |
| StrictHttp.CheckControls | src/StrictHttp.cpp:98-100 | Decides whether a value is free of control characters other than tabs |
| StrictHttp.Trim | src/StrictHttp.cpp:94-95 | Erasing from both ends equals the trim function |
| StrictHttp.ParseNumber | src/StrictHttp.cpp:122 | The value of the digits, or nothing from 2^64 on |
| HeadersOnly.Parse | src/Server.cpp:175-264 | The second parser in the source's form computes `ParsePlain` on every input, of which the same rows speak |
| HeadersOnly.ParseFields | src/Server.cpp:210-243 | Its header loop computes the recursive scan |
| HeadersOnly.TakeLine | src/Server.cpp:218-241 | One line of the second parser, lower-casing before the token test, then the rules of `HttpMeaning.LineStep` |
| HttpMeaning.AcceptedIff | src/StrictHttp.cpp:48-139 | For both parsers and every request taken apart into first line, header lines and rest: accepted if and only if the first line is three words within the limits, every header line is good (length and count, form, no transfer-encoding, no second host, no other content length), HTTP/1.1 has a host, and the declared length is a 64-bit number within the limit with the body there; then method, target, version are the words, the header map is exactly each name with its last trimmed value, and the body is the declared bytes |
| HttpMeaning.AcceptedRequest | src/Server.cpp:175-264 | Every accepted request of either parser has such pieces: no line named transfer-encoding in any spelling, at most one host line and at least one in HTTP/1.1, lines well formed, content lengths equal unless empty, header map as above |
| HttpMeaning.RefusedHeaderLine | src/StrictHttp.cpp:78-113 | After good lines the first that is not good decides the status: 431 too long or too many, 400 malformed, 501 for transfer-encoding, 400 for a second host or another content length |
| HttpMeaning.RefusedFirstLine | src/StrictHttp.cpp:56-71 | 431 for a long first line, 400 unless it is three words, then 405, 400, 414 and 505 in that order |
| HttpMeaning.RefusedAtEnd | src/StrictHttp.cpp:117-132 | After good lines: 400 without a host in HTTP/1.1, 400 for a length that is no 64-bit number, 413 above the limit, 400 when the body is short |
| HttpMeaning.RefusedWithoutBlankLine | src/StrictHttp.cpp:51-52 | Without a blank line the answer is 400 |
| HttpMeaning.HeadIsGoodIff | src/StrictHttp.cpp:55-117 | The same equivalence for everything before the body |
| HttpMeaning.LineStep | src/StrictHttp.cpp:86-113 | One header line after good ones: which rule it breaks and with which status, or the loop state that follows |
| HttpMeaning.Pieces | src/StrictHttp.cpp:51-84 | Every text with a blank line is a first line, header lines without a break in them, an empty line and a rest |
| HttpMeaning.LinesOfBlock | src/StrictHttp.cpp:78-84 | The lines that the loops cut out are those pieces |
| HttpMeaning.WordsAreThree | src/StrictHttp.cpp:60-67 | Extraction with `>>` gives exactly three words if and only if the line is three words with white space between and perhaps around them |
| HttpMeaning.TrimmedIs | src/StrictHttp.cpp:94-95 | The trimmed value is the text without all the spaces and tabs around it and nothing else |
| HttpMeaning.LastNamedIs | src/StrictHttp.cpp:113 | The value kept for a name is that of its last line |
| HttpFraming.ReadHeadersOnly | src/Server.cpp:140-164 | For every stream and every sequence of read sizes: the shortest prefix ending in a blank line, or the same failure; what was read beyond it is handed on unchanged |
| HttpFraming.ParseHeaderContentLength | src/Server.cpp:44-84 | The loop computes the specified length or its absence |
| HttpFraming.CompleteRequestInMemory | src/Server.cpp:266-296 | The result is a function of the bytes after the headers; how they are split into leftover and reads does not show |
| HttpFraming.LengthsAgree | src/Server.cpp:44-84 | While the strict header loop succeeds, the length-only loop either gives up or finds the same number |
| HttpFraming.HeaderLengthAgrees | src/StrictHttp.cpp:108-111 | The same for the whole header part |
| HttpFraming.BodyIsExact | src/Server.cpp:266-296 | If the strict parser accepts the completed request, the body is exactly the declared bytes that follow the headers, or empty without a length, whenever header part and body limit together stay below 2^64 |
| HttpFraming.BodyIsExactIffNoWrap | src/StrictHttp.cpp:119-132 | For any body limit: of what fits the address space, the accepted body is exact if and only if header part plus declared length stays below 2^64 |
| HttpFraming.WrappedLengthPasses | src/StrictHttp.cpp:127-128 | A complete request with the largest declared length and no body is accepted and served with an empty body when the body limit allows that length |
| HttpFraming.Serve | src/Server.cpp:495-736 | Reading, checking, completing and parsing a request that is completed in memory is one function of the bytes sent, for all read sizes |
| HttpFraming.ServedBodyIsExact | src/Server.cpp:495-736 | For every `max_request_bytes`: an accepted request equals the headers-only parser's request plus exactly the declared bytes after the first blank line, if its header part plus the body limit stays below 2^64 |
| HttpServed.ServedIff | src/Server.cpp:495-736 | Both directions: of what a peer sends, a request is served if and only if the strict parser accepts the bytes sent, headers and declared body fit `max_request_bytes`, and no content-length line is empty or the length is 0; it is then the strict parser's request (header part plus body limit below 2^64) |
| HttpServed.ScanLengthIs | src/Server.cpp:44-84 | The length-only loop on good lines: nothing from an empty length line on, otherwise the declared number |
| HttpServed.CompletedIs | src/Server.cpp:266-296 | How much of the body is read for good lines: the declared number of bytes, or none at all if some length line is empty |
| HttpServed.EmptyLengthIsRefused | src/Server.cpp:67-74 | A request with an empty length line before the real one: the strict parser accepts it with its body, and it is never served |
| UploadNames.SanitizeIsIdempotent | src/Multipart.cpp:126-143 | Sanitized names have only letters, digits, dot, underscore and dash, no dot at either end, at most 103 characters, and sanitizing again changes nothing |
| UploadNames.NameIsKept | src/Multipart.cpp:126-143 | Directories are dropped, each character that is not safe becomes an underscore, all others stay, for names of up to 96 characters with no dot at an end |
| UploadNames.SafeIff | src/Multipart.cpp:145-164 | A client's name is refused if and only if the lower-cased sanitized name ends with a blocked ending |
| UploadNames.BlockedIff | src/Multipart.cpp:162-163 | The extension test refuses exactly the names with such an ending |
| UploadNames.PrefixKeepsExtension | src/Multipart.cpp:264 | The unique prefix does not change a name's extension |
| UploadNames.SafeNameIsStoredHarmless | src/Multipart.cpp:145-164 | A name that passes the check is stored under a plain, unhidden name that in no spelling ends with a blocked ending |
| MultipartModel.UploadsAreHarmless | src/Multipart.cpp:166-468 | For every body and both parsers, successful or not: no listed file has a name that in any spelling ends with a blocked ending, all names are plain and sizes within the limit, and there are at most `maxParts` of them |
| MultipartModel.PartsAreHarmless | src/Multipart.cpp:199-283 | The buffer parser's loop keeps that from any state |
| MultipartModel.SpoolPartsAreHarmless | src/Multipart.cpp:339-468 | The line parser's loop keeps that from any state |
| MultipartModel.ContentFits | src/Multipart.cpp:395-461 | The content loop never collects more than the limit |
| MultipartModel.BoundaryIsTaken | src/Multipart.cpp:99-124 | A boundary of 1 to 70 permitted characters is taken from the content type as it is; a longer one is not |
| MultipartModel.QuotedBoundaryIsTaken | src/Multipart.cpp:111-118 | The same with quotes around it, which are taken off |
| MultipartModel.DispositionIsRead | src/Multipart.cpp:57-79 | A quoted field name and file name are read as they stand, unless the field name ends with `filename=` |
| MultipartModel.UnquotedIsRead | src/Multipart.cpp:57-79 | A quote that is not closed gives nothing; without quotes the value ends at the first semicolon or at the end |
| MultipartRoundTrip.ParsersInvertTheEncoder | src/Multipart.cpp:166-468 | For every non-empty list of parts with disposition headers and content without CRLF, delimiter lines or a leading delimiter, both parsers succeed under the same condition (limits and safe names) and save the same fields, names and bytes, those encoded |
| MultipartRoundTrip.BufferParserInverts | src/Multipart.cpp:166-288 | The buffer parser on a body encoded from parts in which it sees no delimiter, also with CRLF in contents and parts without disposition: success if and only if the parts are acceptable, contents unchanged |
| MultipartRoundTrip.LineParserInverts | src/Multipart.cpp:291-468 | The line parser on a body encoded from parts without delimiter lines: success if and only if the parts with CRs dropped are acceptable, and that content is saved |
| MultipartRoundTrip.BlockedNameIsRefused | src/Multipart.cpp:257-262 | For both parsers and whatever the other parts are: the first part whose sanitized name in any spelling ends with a blocked ending ends the upload with status 415 and only the files before it are listed; that all other names pass is the condition of the two rows before this |
| MultipartRoundTrip.AcceptedAlikeIff | src/Multipart.cpp:166-468 | On a body encoded without preamble from parts in which the buffer parser sees no delimiter and whose fields have no delimiter line: where both parsers accept, their results are equal if and only if no file contains CRLF and no file contains a line that is a delimiter |
| MultipartRoundTrip.ParsersSaveAlikeIff | src/Multipart.cpp:166-468 | On a body encoded without preamble from acceptable parts in which neither parser sees a delimiter: both accept, and their results are equal if and only if no uploaded file contains CRLF |
| MultipartRoundTrip.DelimiterLineShows | src/Multipart.cpp:395-461 | Whatever comes before and after it, the first file with a delimiter line makes the line parser fail or list other bytes than the buffer parser |
| MultipartRoundTrip.ContentStopsShort | src/Multipart.cpp:398-437 | With a delimiter line inside a content the line parser keeps strictly less than was sent |
| MultipartRoundTrip.PreambleDiffers | src/Multipart.cpp:331-335 | For every body that starts with a delimiter: text put before it is skipped by the buffer parser and refused by the line parser |
| MultipartRoundTrip.SavedAlikeIffNoCrLf | src/Multipart.cpp:398-461 | The files that the two round trips name are the same if and only if no uploaded file contains CRLF |
| MultipartRoundTrip.VerdictsAgreeIff | src/Multipart.cpp:166-468 | On a body encoded without preamble from parts in which neither parser sees a delimiter: the two verdicts agree if and only if both refuse it in any case (too many parts, no file bytes allowed at all, an unsafe name, or a part too large even without its CRs), or a part too large only as sent exists exactly when a too large part without disposition does |
| MultipartDifferences.FilesWithCrLfDiffer | src/Multipart.cpp:398-461 | A body that both parsers accept and save differently |
| MultipartDifferences.UnnamedPartDiffers | src/Multipart.cpp:236-237 | A body with a part without disposition that only the buffer parser accepts |
| MultipartDifferences.FieldWithCrLfDiffers | src/Multipart.cpp:395-461 | A body with a field that only the line parser accepts |
| MultipartDifferences.FinalLineInFileDiffers | src/Multipart.cpp:399 | A file with a line that is the final delimiter: both parsers accept, the line parser saves what comes before that line |
| MultipartDifferences.SecondFileInFile | src/Multipart.cpp:399-437 | A file with a delimiter line and headers behind it: the buffer parser saves one file, the line parser two |
| MultipartDifferences.EmptyLineBeforeDiffers | src/Multipart.cpp:331-335 | An empty line before the first delimiter: only the buffer parser accepts |
| MultipartRoundTrip.DropCrChanges | src/Multipart.cpp:325-329 | Dropping one CR before each LF changes a text if and only if it contains CRLF |
| MultipartRoundTrip.ContentIsRead | src/Multipart.cpp:395-461 | The pending-line loop stores exactly the content up to the delimiter line, one CR dropped before each LF, or reports it too large |
| MultipartRoundTrip.PartIsRead | src/Multipart.cpp:199-283 | One round of the buffer parser consumes exactly one encoded part |
| MultipartRoundTrip.SpooledPartIsRead | src/Multipart.cpp:339-468 | One round of the line parser consumes exactly one encoded part |
| MultipartRoundTrip.PartEnds | src/Multipart.cpp:210 | The search for the delimiter ends at the end of the part and nowhere inside it |
| MultipartRoundTrip.LinesParse | src/Multipart.cpp:27-55 | Part headers are entered line by line, with or without the last break, so both parsers see the same map |
| Multipart.SaveUploads | src/Multipart.cpp:166-288 | The buffer parser in the source's form computes the specified result |
| Multipart.SaveFrom | src/Multipart.cpp:197-287 | Its loop over positions computes the recursion over the rest of the body |
| Multipart.SavePart | src/Multipart.cpp:236-282 | The size test, then 415 exactly for a name with a blocked ending, otherwise the file under the stamp and the sanitized name |
| Multipart.ParsePartHeaders | src/Multipart.cpp:27-55 | The header loop with its position |
| Multipart.SanitizeFilename | src/Multipart.cpp:126-143 | The editing loops compute the specified name |
| Multipart.SaveUploadsFromSpoolFile | src/Multipart.cpp:291-468 | The line parser in the source's form computes the specified result, also when the spool file cannot be opened |
| Multipart.SaveLines | src/Multipart.cpp:337-468 | Its outer loop |
| Multipart.ReadHeaderLines | src/Multipart.cpp:346-350 | Its header loop, with the stream's state afterwards |
| Multipart.ReadContentLines | src/Multipart.cpp:395-461 | Its content loop with one pending line |
| Multipart.LineReader.GetLineClean | src/Multipart.cpp:325-329 | `std::getline` with one CR removed, a last line without LF, and failure only at the end |
| RateLimiterModel.CleanupIsInvisible | src/RateLimiter.cpp:10-43 | For every sequence of calls with positive readings at most 120 s out of order, the sharded, cleaned limiter answers like one never-cleaned 60-second counter per key |
| RateLimiterModel.InvisibleIffAtMost120Seconds | src/RateLimiter.cpp:10-43 | 120 s is the exact bound: invisible on all sequences with that disorder if and only if it is at most 120 s |
| RateLimiterModel.CleanupShowsBeyond120Seconds | src/RateLimiter.cpp:10-16 | A concrete run of 4097 calls that shows the difference beyond it |
| RateLimiterModel.AllowKeepsSim | src/RateLimiter.cpp:18-43 | One call: same answer, and buckets and windows stay related for every key |
| RateLimiterModel.SlidingWindowBound | src/RateLimiter.cpp:18-43 | In any T seconds at most `(ceil(T/60) + 1) * maxPerMinute` calls for a key are allowed, so at most twice the limit in 60 seconds, cleanup included |
| RateLimiterModel.RefusedOnlyWhenUsedUp | src/RateLimiter.cpp:18-43 | With nondecreasing readings the real limiter refuses a call only after `maxPerMinute` calls of its key were let through in the 60 s before it |
| RateLimiter.RateLimiter.CleanupShard | src/RateLimiter.cpp:10-16 | Erasing while walking leaves exactly the buckets that are not idle |
| RateLimiter.RateLimiter.AllowCall | src/RateLimiter.cpp:18-43 | The method computes the specified step |
| AuditLogModel.RotationDropsOldest | src/Logger.cpp:164-191 | A rotation drops exactly the old `.keep` from the kept history |
| AuditLogModel.AuditExtendsHistory | src/Logger.cpp:194-204 | One call appends its line and loses at most the old `.keep`, and only by a rotation |
| AuditLogModel.NothingIsRotatedAway | src/Logger.cpp:154-162 | While the live file and the lines fit into the limit together, no file moves and no byte is lost |
| AuditLogModel.RotationKeepsSuffix | src/Logger.cpp:154-204 | Over any run, `.keep` through `.1` and the live file together are a suffix of the initial contents plus all lines; all of it when rotation is off |
| AuditLogModel.NothingBeyondKeep | src/Logger.cpp:154-204 | Files beyond `.keep` are neither created nor touched |
| AuditLogModel.FilesStaySmall | src/Logger.cpp:154-162 | A file larger than the limit and the longest line is one of the initial files |
| AuditLog.AuditLog.RotateIfNeeded | src/Logger.cpp:154-192 | The descending rename loop equals shifting all files up at once |
| AuditLog.AuditLog.Audit | src/Logger.cpp:194-204 | Rotation, then the line at the end of the live file |
| AccessLogProtocol.AccessLinesConserved | src/Logger.cpp:51-140 | In every reachable state the accepted lines are those written, in batches or queued; the queue is bounded; each sampled line is accepted, counted dropped or on its way; sampling is one in `rate` |
| AccessLogProtocol.AccessLinesInOrder | src/Logger.cpp:63-124 | While nobody flushes, in every reachable state file, batch and queue together are the accepted lines in order |
| AccessLogOrder.InOrderIffNoOvertaking | src/Logger.cpp:51-140 | In every reachable state of every run, concurrent flushes included, whose accepted lines are distinct: the file is a prefix of the accepted lines if and only if no step wrote a non-empty batch while a non-empty batch taken earlier was still unwritten |
| AccessLogOrder.DestroyedInOrderIff | src/Logger.cpp:51-61 | After the destructor the file is exactly the accepted lines in order, if and only if the same holds |
| AccessLogOrder.FlushingAloneKeepsOrder | src/Logger.cpp:111-140 | If flushes are called only while nobody holds lines, and the writer takes none until they are done, nothing overtakes and the file stays a prefix of the accepted lines |
| AccessLogCallers.EarlyApartFlushesKeepOrder | src/Logger.cpp:63-140 | A condition on the callers' steps alone: if no flush comes after the second line to be queued and no line is queued during a flush, nothing overtakes, whatever the writer does |
| AccessLogCallers.InOrderIffFlushesEarly | src/Logger.cpp:63-140 | For every program of a single caller with distinct lines, every capacity and sampling rate: the lines are in order at the end of every run, whatever the writer does, if and only if no flush comes after the second line to be queued |
| AccessLogCallers.LateFlushReorders | src/Logger.cpp:111-140 | For every program with such a flush, a schedule of the writer that puts a later line first |
| AccessLogCallers.LineDuringFlushReorders | src/Logger.cpp:126-140 | With several callers, a line logged during an early flush can come before the flushed one |
| AccessLogOrder.RunKeepsLedger | src/Logger.cpp:103-140 | In every reachable state the batches recorded as unwritten are those the threads hold, disjoint stretches of the accepted lines, and the queue is what follows them |
| AccessLogOrder.PutKeepsOrdered | src/Logger.cpp:103-109 | Writing the earliest unwritten batch continues the file |
| AccessLogOrder.OvertakingBreaks | src/Logger.cpp:103-109 | The first overtaking puts a line where a different one belongs |
| AccessLogProtocol.StoppingStepsWork | src/Logger.cpp:51-61 | Once stopping, every step lowers a measure of the work left |
| AccessLogProtocol.DestructorNeverStuck | src/Logger.cpp:51-61 | Until the destructor is done, the writer or the destructor can go on |
| AccessLogProtocol.DestructorIsBounded | src/Logger.cpp:51-61 | From the moment stopping is set a run has at most seven further steps |
| AccessLogProtocol.NothingUnwrittenAfterDestructor | src/Logger.cpp:51-61 | After the destructor every accepted line is in the file, in order if nobody flushed concurrently |
| AccessLogProtocol.ConcurrentFlushReorders | src/Logger.cpp:126-140 | A run in which a flush puts a later line first |
| AccessLog.AccessLog.Sample | src/Logger.cpp:73-74 | The sampling test; one step of the protocol |
| AccessLog.AccessLog.PushLocked | src/Logger.cpp:92-99 | Dropped and counted exactly when full; one step of the protocol |
| AccessLog.AccessLog.WriterSwap | src/Logger.cpp:114-119 | Takes the whole queue, leaves only when stopping with nothing taken; one step of the protocol |
| AccessLog.AccessLog.WriteBatch | src/Logger.cpp:103-109 | Writes the batch in order; one step of the protocol |
| AccessLog.AccessLog.FlushTake | src/Logger.cpp:129-134 | A flush takes the whole queue; one step of the protocol |
| AccessLog.AccessLog.FlushPut | src/Logger.cpp:135 | ... and writes what it took; one step of the protocol |
| AccessLog.AccessLog.StopLocked | src/Logger.cpp:53-56 | The destructor's critical section; one step of the protocol |
| AccessLog.AccessLog.JoinAndFlush | src/Logger.cpp:58-60 | The rest of the destructor: the queue goes to the file and everything accepted is written |
| FastCgiFormat.LengthRoundTrip | src/FastCgiClient.cpp:39-48 | Lengths below 2^31 decode to themselves (section 3.4 of the FastCGI Specification 1.0) |
| FastCgiFormat.LengthSurvivesIff | src/FastCgiClient.cpp:39-48 | 2^31 is the exact limit |
| FastCgiFormat.PairsRoundTrip | src/FastCgiClient.cpp:68-79 | Decoding encoded pairs returns them in order |
| FastCgiFormat.RecordRoundTrip | src/FastCgiClient.cpp:81-98 | A record decodes to its parts and is a multiple of 8 bytes (section 3.3) |
| FastCgiFormat.StreamRoundTrip | src/FastCgiClient.cpp:112-142 | A stream decodes to records of request 1 with 65535 bytes each up to the last two, padded to multiples of 8 with less than 8 bytes, only the last empty, whose contents are the data |
| FastCgiFormat.ResponseRecovered | src/FastCgiClient.cpp:190-227 | From any interleaving of well-formed records before the end record (type 3), with any padding, the loop recovers the joined output (type 6); it fails only for errors (type 7) without output |
| FastCgiFormat.ForeignRecordFails | src/FastCgiClient.cpp:202-204 | A record of another request, unless it is an end record, makes the loop fail |
| FastCgiClient.EncodeNameValuePairs | src/FastCgiClient.cpp:68-79 | Each entry of the map exactly once, in some order |
| FastCgiClient.BuildStream | src/FastCgiClient.cpp:116-125 | The chunk loop produces the specified stream |
| FastCgiClient.BuildParams | src/FastCgiClient.cpp:112-126 | Records of type 4; decoding them returns the original map |
| FastCgiClient.BuildStdin | src/FastCgiClient.cpp:129-142 | Records of type 5; decoding them returns the body |
| FastCgiClient.BuildBeginRequest | src/FastCgiClient.cpp:100-110 | Decodes to one record of type 1 with role 1, the responder |
| FastCgiClient.Receive | src/FastCgiClient.cpp:187-227 | The record loop computes the specified response |
| Sha256Spec.PaddingIsInjective | src/Auth.cpp:88-96 | Different messages below 2^61 bytes have different padded forms (section 5.1.1 of FIPS 180-4) |
| Sha256Spec.DigestIs64HexDigits | src/Auth.cpp:156-159 | The digest is 64 lower-case hexadecimal digits |
| Sha256Spec.DigestIsLastOfChain | src/Auth.cpp:98-154 | The digest is the last value of the chain over the padded message's blocks, each compressed by itself and added to the value before it |
| Sha256Constants.RoundConstants | src/Auth.cpp:13-30 | For each of the 64 constants k and the prime p with its number there is a whole c with (c 2^32 + k)^3 <= p 2^96 < (c 2^32 + k + 1)^3 (section 4.2.2 of FIPS 180-4) |
| Sha256Constants.InitialHash | src/Auth.cpp:98-101 | The same for the eight initial words with squares and 2^64 (section 5.3.3) |
| Sha256Constants.FirstPrimes | src/Auth.cpp:13-30 | The list used there holds the first 64 primes in order |
| Sha256KnownAnswer.DigestOfAbc | src/Auth.cpp:87-160 | The digest of "abc" is ba7816bf8f01cfea414140de5dae2223b00361a396177a9cb410ff61f20015ad |
| Sha256KnownAnswer.AllRounds | src/Auth.cpp:119-144 | The working variables after 64 rounds on that block, as literals |
| Sha256KnownAnswer.WordIsScheduled | src/Auth.cpp:104-117 | The 64 schedule words of that block, as literals |
| Sha256.PadMessage | src/Auth.cpp:88-96 | The padding loops compute the specified padding, a multiple of 64 bytes |
| Sha256.Schedule | src/Auth.cpp:104-117 | The schedule array equals the recurrence of section 6.2.2 at all 64 indices |
| Sha256.RoundStep | src/Auth.cpp:129-143 | One round |
| Sha256.RunRounds | src/Auth.cpp:119-144 | The round loop equals 64 specified rounds; constants, rotations and order are fixed by the two rows on constants and `Sha256KnownAnswer.DigestOfAbc` |
| Sha256.Compress | src/Auth.cpp:103-153 | One block added into the state |
| Sha256.HashMessage | src/Auth.cpp:98-154 | All blocks, from the initial state |
| Sha256.WriteHex | src/Auth.cpp:156-159 | The state as text |
| Sha256.Sha256Hex | src/Auth.cpp:87-160 | The whole function equals the recursive specification for every input below 2^61 bytes; the digest of "abc" is that of the standard (`Sha256KnownAnswer.DigestOfAbc`) |
| AuthModel.AllowedIff | src/Auth.cpp:186-222 | A request is allowed as `name` if and only if the first rule that its secret belongs to has `*` or the lower-cased scope among its scopes and no expiry or one after now, or no rule matches and it is the legacy secret |
| AuthModel.DecisionIs | src/Auth.cpp:182-222 | In the fields of the first rule the secret belongs to: expired if and only if 0 < `expiresAt` <= now; allowed if and only if not expired and `*` or the lower-cased scope is among the scopes; otherwise insufficient scope; and the answers without a header, without the prefix and without a rule |
| AuthModel.SecretMatches | src/Auth.cpp:203-211 | A rule matches by the digest of the secret, in any spelling, if it has one, otherwise by an equal, non-empty token |
| AuthModel.EarlierRulesPrevail | src/Auth.cpp:203-215 | Later rules never change the answer for a secret that an earlier rule matches |
| Auth.ConstantTimeEquals | src/Auth.cpp:162-172 | The accumulated difference is zero if and only if the strings are equal |
| Auth.CheckScope | src/Auth.cpp:174-180 | Decides whether a rule has the scope |
| Auth.Authorize | src/Auth.cpp:186-222 | The loop with its hash computes the decision of `AuthModel.DecisionIs` |
| AuthStoreModel.RunsServeTheLastLoaded | src/AuthRuntimeStore.cpp:67-141 | Over every run the active rules are the inline rules followed by those of the last version reported loaded, or none after a reported removal; names are distinct; the generation counts the reloads |
| AuthStoreModel.StepKeepsConsistency | src/AuthRuntimeStore.cpp:67-141 | One refresh: nothing happens unless it is forced or reloading is on and the interval has gone by; a result other than `Reloaded` changes neither rules nor generation, and a detected removal cannot fail |
| AuthStoreModel.CreatedIsConsistent | src/AuthRuntimeStore.cpp:16-38 | A store that was constructed starts consistent with generation 1 |
| AuthStoreModel.FailedVersionIsRemembered | src/AuthRuntimeStore.cpp:132-140 | A version that failed is not tried again until its write time changes |
| AuthStoreModel.RunsAreUpToDate | src/AuthRuntimeStore.cpp:67-141 | If write times identify versions, every refresh that looks at the file ends with the rules of a version current during that refresh, or none if the file was gone, unless a version during it was unusable |
| AuthStoreModel.StepTracks | src/AuthRuntimeStore.cpp:105-140 | One refresh keeps track of which version the remembered write time belongs to |
| AuthStoreModel.QuietConstructorTracks | src/AuthRuntimeStore.cpp:25-32 | A constructor during which the file is not written starts that tracking |
| AuthStoreModel.MissedWriteStaysMissed | src/AuthRuntimeStore.cpp:29-30 | After a constructor that loaded one version and read the write time of another: a refresh that looks at a file whose rules have changed ends with current rules if and only if it or one before it was forced, saw another write time or found no file; otherwise the store still has what it loaded |
| AuthStoreModel.RunsRecover | src/AuthRuntimeStore.cpp:67-141 | From any remembered write time: until some refresh notices, only the time of the last check changes; from then on every refresh that looks leaves the rules up to date |
| AuthStoreModel.NoticingRecovers | src/AuthRuntimeStore.cpp:81-140 | A refresh that is forced, sees another write time or finds no file sets the store right |
| AuthStoreModel.RevocationIsMissed | src/AuthRuntimeStore.cpp:29-30 | A history in which a token is revoked during construction and is still allowed after any number of refreshes that look at the file without it |
| AuthRuntimeStore.AuthRuntimeStore.Create | src/AuthRuntimeStore.cpp:16-38 | The constructor's checks and final state |
| AuthRuntimeStore.AuthRuntimeStore.CombineAndValidate | src/AuthRuntimeStore.cpp:40-60 | Succeeds if and only if all names are distinct, with the two lists joined in order |
| AuthRuntimeStore.AuthRuntimeStore.Append | src/AuthRuntimeStore.cpp:48-55 | The loop with its set of names |
| AuthRuntimeStore.AuthRuntimeStore.Refresh | src/AuthRuntimeStore.cpp:67-141 | The method computes the specified transition and result |
| AuthRuntimeStore.AuthRuntimeStore.Authorize | src/AuthRuntimeStore.cpp:143-161 | A refresh, then any refreshes of other threads, then a decision with the rules as the last one left them |
| TokenFileRoundTrip.WriteThenLoad | scripts/manage_auth_tokens.py:71-126 | Reading what was written returns the same entries, in name order |
| TokenFileRoundTrip.TextIsStable | scripts/manage_auth_tokens.py:102-109 | A second read and write leaves the text unchanged |
| TokenFileRoundTrip.EveryAcceptedFileSettles | scripts/manage_auth_tokens.py:71-126 | The same starting from any text the tool accepts, whatever its spacing, comments, case and order |
| TokenFileRoundTrip.LinesLoadValid | scripts/manage_auth_tokens.py:78-99 | Whatever is loaded is valid: names, hashes, scopes and expiries in canonical form, names distinct |
| TokenFileRoundTrip.EntryRoundTrip | scripts/manage_auth_tokens.py:16-32 | The token pattern reads back a serialized entry, which is not mistaken for a comment |
| TokenFileRoundTrip.ScopesRoundTrip | scripts/manage_auth_tokens.py:62-68 | `parse_scopes` inverts joining with commas |
| TokenFileRoundTrip.SortedIsSorted | scripts/manage_auth_tokens.py:108 | Sorting permutes the entries into name order |
| TokenFileRoundTrip.StripJoined | scripts/manage_auth_tokens.py:109 | Stripping the joined text drops trailing blank lines and trims the last one |
| TokenTool.LoadEntries | scripts/manage_auth_tokens.py:71-99 | The loop computes the specified result |
| TokenTool.AtomicWrite | scripts/manage_auth_tokens.py:105-109 | The lines are built up to the specified text |
| TokenFileAcrossLanguages.ServerReadsWhatWasWritten | src/Auth.cpp:251-275 | From a written file the server reads one rule per entry, in name order, with the same hash, scopes and expiry, if and only if expiries are below 2^63 and kept lines are blank or comments for the server too |
| TokenFileAcrossLanguages.LateExpiryIsRefused | src/Auth.cpp:74-84 | A file with an entry that expires at 9223372036854775808 is written and read back by the tool and refused by the server |
| TokenFileAcrossLanguages.PythonBlankIsRefused | src/Auth.cpp:258-264 | So is a file with a kept line that is one no-break space |
| TokenFileAcrossLanguages.EntryIsOneRule | src/Auth.cpp:257-271 | One serialized line is that entry's rule, or refused for its expiry |
| TokenFileAcrossLanguages.RuleIsRead | src/Auth.cpp:224-249 | `parseTokenRule` on a serialized value |
| TokenFileAcrossLanguages.ExpiryIsRead | src/Auth.cpp:74-84 | `never` is 0, digits are their value up to 2^63 |
| TokenFileAcrossLanguages.PreservedIsSkippedOrBad | src/Auth.cpp:258-264 | A kept line the server does not skip is one it refuses |
| TokenFileAcrossLanguages.WrittenRulesAreAccepted | src/AuthRuntimeStore.cpp:40-60 | A store without inline rules never refuses a written file for its names |
| SecretsLoader.LoadSecretsFile | src/Auth.cpp:251-275 | The line loop computes the specified result |

## Left out

- Sockets, TLS, accept loops, timeouts, `Application.cpp`, `main.cpp` and `WindowsService.cpp`: input and output. A connection is a byte string with reads of at least one byte; a read error other than end of file is not modelled.
- Routing, response building, MIME types, JSON and the admin status page (`Server.cpp`), `Config.cpp` and `SqliteModule`: long lists of cases that one reading settles.
- `Security.cpp` and `Htaccess.cpp`: they rest on the real file system.
- `readRequestWithBody` (src/Server.cpp:86-132): the two functions modelled here one after the other.
- HttpFraming.Serve: the branches that answer before the body is read (spooled uploads, the admin endpoint; src/Server.cpp:505-716 apart from the header check) are not part of it.
- Reason phrases and message texts: an error is its status code, or the fact that the code throws.
- File system failures other than a missing or unreadable file, failing log files, and partial files left on disk by a failed upload: assumed away.
- `parseCgiResponse` (src/FastCgiClient.cpp) and the check of the CGI status line: easy.
- Clock readings, `uniquePrefix`, `Logger::now` and `std::hash`: inputs or arbitrary fixed functions.
- Time in waits (`wait_for`, `wait`): a waiter may wake at any moment, so every real schedule is covered; fairness is not modelled.
- Wrap-around of counters, of the cache's clock and of `maxBytes + shards`: counters are unbounded, and nothing is subtracted below zero.
- The running time of `constantTimeEquals`.
- `FastCgiClient.EncodeNameValuePairs` and all maps that the source walks: the order of a hash map is arbitrary.
- StaticFileCache.StaticFileCache.Get: speaks of one thread; all interleavings are covered by the transition system of `CacheProtocol.dfy`.
- TokenFileAcrossLanguages.ServerReadsWhatWasWritten: speaks of characters where the server sees UTF-8 bytes; bytes of non-ASCII characters are never separators, so the result is the same.
- TokenTool.AtomicWrite: the text only; the temporary file, its mode and the rename are not modelled.
- AccessLogProtocol.AccessLinesInOrder: assumes the access file is open and `asyncAccessLog` is on; the synchronous branch writes each line under one mutex.
- Other non-ASCII letters in a scope: all that Python lower-cases to ASCII is the Kelvin sign, which is modelled; the rest are refused either way.
- MultipartRoundTrip.AcceptedAlikeIff: bodies with a delimiter line in a field, bodies with bare LF line ends in the headers, and bodies that only one parser accepts are not compared by it; the per-parser results speak of the latter.
- The drop of a field's text: parts without a file name are checked against the limits and not stored, as in the source.
