# multifs, S3 back end: a model and its proofs

The S3 back end keeps each open object as a local file that is downloaded piece by piece, lets
clients read and write it as if it were a plain file, and uploads it again on flush. These Dafny
modules model that machinery and prove what it keeps. `dafny verify dfyconfig.toml` checks everything.

| module | subject |
|---|---|
| `Numbers`, `Text` | small shared functions |
| `Pages`, `PageLists` | the run-length list that says which bytes of the local file are loaded, and its in-place operations |
| `PageText` | the text of a cache stat file: printing and parsing a page list |
| `LocalFiles`, `Requests`, `Downloads` | the local file's system calls; how a request can end; one ranged GET with its write callback, retries and Range header |
| `ParallelGets` | a range downloaded in parallel parts, in groups of requests and rounds of retries |
| `Answers`, `Transfers` | what the answers alone say about a part; one request or parts, and the filling with zeros |
| `FdEntities`, `FdRuns` | one open object: open, load, read, write, flush; whole runs of client calls |
| `FdManagers` | reference counts and the manager's map of open objects |
| `MultiPerform` | the bounded-parallel worker protocol, as a state machine over all schedules |
| `Keywords`, `Multipart`, `PartSizing` | part URLs, splitting, sending, rounds with retries, completion; part sizes when the disk is full |
| `Uploads` | the whole file on its way out: one PUT, or a multipart upload |
| `StatCaches` | the attribute cache and its eviction |
| `HeaderLists` | the sorted request headers and the two texts made from them for signing |
| `Wtf8`, `Base64`, `UrlCodec` | the codecs |

## The main results

- **The cache is a flat file.** `FdEntity.Content()` reads a loaded byte from the local file, an
  unloaded one from the remote object below the original size, and as zero past it. Every operation is
  proved to do to `Content()` what it would do to a plain byte array, and `FdRuns.OpenAndRun` lifts
  this to any sequence of opens (with truncation), reads, writes, loads and flushes, failed ones
  included: each successful read returns, and each upload sends, what the plain array holds, as long as
  the answers to the parts of parallel downloads are complete (`CompleteNet`). That is a condition on the
  answers alone, and it holds if and only if no part is ever taken for done without being right, whatever
  was in the local file (`Transfers.CompleteMeans`). It holds where every request ends in a success or in
  an answer that is tried again and has left only wanted bytes (`Transfers.PromptIsComplete`), and where
  all transfers work in the end. `Load` says exactly when it succeeds, where it stops if it fails, and
  when it keeps the flat file. Where the outside world works every call of a run succeeds, and
  `FdRuns.AnsweringCalls` shows that there are such worlds.
- **Parallel downloads.** `ParallelGetObjectRequest` works in groups of parts and rounds of retries,
  with the threads of a round getting through in any order. It is proved to do to the range what each
  part comes to on its own (`PartRun`), to succeed exactly if no part is given up, and then to leave
  the right bytes if and only if every part was well answered (`RangeRight`).
- **Flush.** A flush is followed down to the read callbacks and the tries of each request: whatever the
  answers, the server then holds what it held before or the local file, and after a success the local
  file. `RowFlush` asks for the unloaded bytes of an empty window, so it never loads anything; what
  it sends is the flat file if and only if every unloaded local byte is what it stands for. In a run,
  as long as no open makes the file longer and every write completes, a flush uploads exactly if a
  write has come since the last upload; and as long as all calls succeed, exactly if the flag computed
  by `TrackRun` is set, which zero-filling past the original size clears (`FdRuns.FlushAt` in
  `Run` and `OpenAndRun`).
- **The worker protocol** ends on every schedule within a bounded number of moves, at most N workers
  have not given back their permit at any time, and when it can go no further the call has returned with each
  worker joined exactly once, if and only if every thread could be created.
- **Multipart upload** reports success only if the object put together from what the read callbacks sent is
  the file, for any answers, retries, order of completion and number of rounds, and it needs at most
  `retries + 1` rounds.
- **Codecs, header order, eviction, reference counts, stat text**: round trips, canonical forms and whole-run invariants.

## Where the code does not do what its callers expect

Each of these is stated with its exact condition or with a concrete input.

- A parallel download reports success although a part was never answered: when every try times out the
  response code stays -1, which MultiRead takes for less than 400. The part counts as done with
  whatever was in the local file (`ParallelGets.Unanswered`), and a load of the file reports success with
  nothing loaded (`FdRuns.LoadUnanswered`). A 404 page takes the place of a part in the same way
  (`ParallelGets.NotFound`; src/protocols/s3/curl.cpp:4226-4243). `ParallelGets.PartRight` and
  `RangeRight` give the exact condition for what is in the local file, `Answers.SureMeans` for any content.
- The retry of a part of a parallel download starts where the failed attempt stopped, so the body of an
  error answer stays in the file (`ParallelGets.RetryAfterFailure`, `ParallelGets.ErrorBodyStays`;
  src/protocols/s3/curl.cpp:1507-1531).
- A complete write followed by a flush is lost when a byte behind the written area was missing past the
  original size: zero-filling it clears the modify flag, and the flush reports success without
  sending (`FdRuns.WriteThenFlush`, `FdRuns.LostUpdate`; src/protocols/s3/fdcache.cpp:1263-1270). The same
  happens when the file is made longer after the write and the new bytes are loaded before the flush
  (`FdRuns.LostByLoad`); `FdRuns.Run` gives the exact condition for runs whose calls succeed. Both happen
  on a network that answers every request at once (`FdRuns.Losses`).
- A truncation whose load fails has cut the file but not the original size, so bytes cut off can show up
  again (`FdRuns.StaleBytes`; src/protocols/s3/s3fs.cpp:2120-2132). It happens where the server refuses every
  request (`FdRuns.Losses`).
- A flush can report an error although the server has taken the object: a PUT that was carried out while
  its answers were lost (`Uploads.KeptUnanswered`); `FdEntity.RowFlush` says exactly when.
- An entity whose first open fails stays in the manager's map, and the next open hands it out closed
  (`FdManagers.ClosedEntityHandedOut`; src/protocols/s3/fdcache.cpp:2168-2245).
- A failed thread creation loses a permit and the call never returns
  (`MultiPerform.MultiPerformTerminates`; src/protocols/s3/curl.cpp:4158-4187).
- A pinned entry of the attribute cache can be evicted: if no two entries have the same age, exactly those go
  that have fewer than `Limit` entries before them (`StatCaches.PinnedEntriesLost`,
  `StatCaches.PinnedEntryEvicted`; src/protocols/s3/cache.cpp:526-541), where `Limit` is the largest i such
  that i and the pins among the first i keys visited are within the number asked for (`StatCaches.LimitIs`).
  The cache may hold one entry more than its configured size (`StatCaches.Overfill`), and never holds more
  than that and one for each pin (`StatCaches.Run`).
- A part whose path holds "partNumber" or "uploadId" cannot be retried (`Multipart.RetryKeepsPart`).
- The wtf8 encoder called without a result string answers "invalid" for everything but ASCII
  (`Wtf8.CheckOnlyMeaning`), and its tests let the surrogates D900 to DFFF pass although its comment
  says it excludes surrogates (`Wtf8.AcceptsGrammar`).
- fdcache.h:100 documents a size of 0 as "to end of list" for `GetTotalUnloadedPageSize`; the code has no
  such case and answers 0. The model follows the code.

## What is assumed of the outside world

Network answers, system call results and free disk space are parameters. A server that answers a
request with 2xx sends the bytes asked for (`Honest`, `HonestServer`), all of the object if there is no Range header;
it keeps a part or an object only if it got as many bytes as were announced, sends an ETag only for a part it
keeps, and answers the PUT of an object with 2xx only if it keeps it.
Threads can be created, except in the module `MultiPerform`. The part size and the number of parallel requests
are positive (src/protocols/s3/s3fs.cpp:4929-4949).
`ftruncate` inside `ReserveDiskSpace` works; an upload id holds no '&' and an encoded path no '=' (`UrlCodec.PathHasNoQueryCharacters`).
`OpenAndRun` opens an object first with a size equal to its Content-Length and again without headers; what a
further open with headers does is in the contract of `Open`, and `Truncate` is the call that relies on it.

## Model

| member | source | states |
|---|---|---|
| Pages.Paint | src/protocols/s3/fdcache.cpp:379-419 | What painting a window means for one flag per byte: padded with "unloaded", the window set, all else unchanged |
| Pages.SetPages | src/protocols/s3/fdcache.cpp:379-419 | The list left after painting and compressing is well-formed, alternating and stands for the painted flags |
| Pages.CanonicalUnique | src/protocols/s3/fdcache.cpp:282-306 | A compressed list is the only compressed list for its flags |
| Pages.MergeKeeps | src/protocols/s3/fdcache.cpp:282-306 | Merging a page into an equal neighbour keeps the chain and every flag |
| Pages.SplitKeeps | src/protocols/s3/fdcache.cpp:308-324 | Splitting a page keeps the chain and every flag |
| Pages.SplitAligns | src/protocols/s3/fdcache.cpp:308-324 | The split position becomes a boundary and no boundary is lost |
| Pages.CutAtBoundary | src/protocols/s3/fdcache.cpp:340-357 | The pages before the first one past the new size are the old flags cut to it |
| Pages.CutInside | src/protocols/s3/fdcache.cpp:340-357 | Shortening the page across the new size leaves the old flags cut to it |
| Pages.PaintStep | src/protocols/s3/fdcache.cpp:402-414 | One step of the painting loop keeps "painted before, old behind" in each of its three branches |
| Pages.PageShare | src/protocols/s3/fdcache.cpp:435-469 | What one page adds to the count of unloaded bytes of a window |
| Pages.UnloadedZero | src/protocols/s3/fdcache.cpp:363-377 | The count is 0 exactly when every byte of the window is loaded |
| Pages.RunsStep | src/protocols/s3/fdcache.cpp:471-509 | One step of the scan for unloaded areas keeps the runs exact and maximal |
| Pages.UnloadedRunsUnique | src/protocols/s3/fdcache.cpp:471-509 | The maximal unloaded runs of a window are determined by its flags |
| Pages.RunsTotal | src/protocols/s3/fdcache.cpp:435-509 | The runs of GetUnloadedPages add up to the unloaded bytes of the same window |
| PageLists.PageList.constructor | src/protocols/s3/fdcache.cpp:250-253 | A new list is one page of the given flag |
| PageLists.PageList.Init | src/protocols/s3/fdcache.cpp:265-271 | Resets to one page of the given flag |
| PageLists.PageList.Size | src/protocols/s3/fdcache.cpp:273-280 | The size reported is the number of bytes the list stands for |
| PageLists.PageList.Compress | src/protocols/s3/fdcache.cpp:282-306 | Keeps every flag; neighbours differ afterwards |
| PageLists.PageList.Parse | src/protocols/s3/fdcache.cpp:308-324 | Keeps every flag; the position is a boundary afterwards, and is found whenever it lies inside |
| PageLists.PageList.Resize | src/protocols/s3/fdcache.cpp:326-361 | Cuts the flags or extends them with the given one, for every size |
| PageLists.PageList.Cut | src/protocols/s3/fdcache.cpp:340-357 | The erasing loop leaves exactly the flags below the new size |
| PageLists.PageList.SetPageLoadedStatus | src/protocols/s3/fdcache.cpp:379-419 | Refines painting the flags; compressed, the very list is determined |
| PageLists.PageList.PaintPages | src/protocols/s3/fdcache.cpp:397-414 | The in-place loop between two boundaries paints exactly the window |
| PageLists.PageList.IsPageLoaded | src/protocols/s3/fdcache.cpp:363-377 | True if and only if every byte of the window is loaded; and what the zero-byte page of an empty file answers |
| PageLists.PageList.GetTotalUnloadedPageSize | src/protocols/s3/fdcache.cpp:435-469 | The number of unloaded bytes of the window, where a size of 0 is an empty window |
| PageLists.PageList.GetUnloadedPages | src/protocols/s3/fdcache.cpp:471-509 | Exactly the unloaded bytes of the window, in sorted, disjoint, non-touching runs; a size of 0 means to the end |
| PageLists.PageList.UnloadedBetween | src/protocols/s3/fdcache.cpp:480-507 | The same for the scanning loop alone |
| Text.DecimalReadsBack | src/protocols/s3/string_util.cpp:56-69 | A printed number is read back by s3fs_strtoofft |
| PageText.LineReadsBack | src/protocols/s3/fdcache.cpp:523-525 | A printed page line is read back as the same page |
| PageText.RoundTrip | src/protocols/s3/fdcache.cpp:517-611 | Printing a compressed list and reading the text gives the very same list, empty and zero-byte lists included |
| PageText.ReadIsWellFormed | src/protocols/s3/fdcache.cpp:552-609 | Any text that is read successfully gives a well-formed compressed list whose size is the header line |
| PageText.Save | src/protocols/s3/fdcache.cpp:520-525 | Writes the text of the list |
| PageText.Load | src/protocols/s3/fdcache.cpp:543-609 | Sets the list to what the text stands for, with the error of each malformed case |
| Downloads.GetRequest.DownloadWriteCallback | src/protocols/s3/curl.cpp:894-927 | Stores as much of a piece as fits at the current position, and tells curl to stop exactly if that is not all of it |
| Downloads.GetRequest.WritePieces | src/protocols/s3/curl.cpp:906-922 | The pwrite loop stores a prefix of the piece, whatever the system calls return |
| Downloads.GetRequest.RemakeHandle | src/protocols/s3/curl.cpp:2084-2117 | A retry starts from the beginning of the range again |
| Downloads.GetRequest.Perform | src/protocols/s3/curl.cpp:2285-2290 | One try: the pieces end up joined in the range until one is not taken whole |
| Downloads.GetRequest.RequestPerform | src/protocols/s3/curl.cpp:2275-2459 | Does what the tries do one after the other (`TriedBy`): file, position, response code, result and retry count |
| Downloads.TriedOutside | src/protocols/s3/curl.cpp:894-927 | A request touches nothing outside its range, whatever the answers and system calls |
| Downloads.TriedSuccess | src/protocols/s3/curl.cpp:2275-2459 | A result of 0 comes from a 2xx within the tries and leaves exactly what that answer delivered |
| Downloads.TriedFinal | src/protocols/s3/curl.cpp:2275-2459 | The first final answer decides result, response code, position and bytes, whatever failed before it |
| Downloads.TriedSpliced | src/protocols/s3/curl.cpp:894-927 | What a request does to the file is what it does to its range alone |
| Downloads.RangeHeaderMeaning | src/protocols/s3/curl.cpp:3239-3245 | The header asks for exactly the bytes of the range (section 14.1.2 of RFC 9110) |
| Downloads.GetObjectRequest | src/protocols/s3/curl.cpp:3273-3300 | From an honest server, success leaves exactly the wanted bytes in the range; transient failures do not prevent it |
| LocalFiles.DisjointWritesCommute | src/protocols/s3/curl.cpp:906-922 | Writes of two parts come to the same in either order |
| ParallelGets.PartRight | src/protocols/s3/curl.cpp:4217-4289 | With an honest server, a part that is not given up is right if and only if it was well answered |
| ParallelGets.Unanswered | src/protocols/s3/curl.cpp:4226-4231 | If every try of a part times out it counts as done, with what was in the file before |
| ParallelGets.NotFound | src/protocols/s3/curl.cpp:4238-4243 | A 404 page takes the place of a part, which counts as done |
| ParallelGets.FailureLeaves | src/protocols/s3/curl.cpp:2275-2459 | A final error answer leaves its body at the front of the part and the position behind it |
| ParallelGets.RetryAfterFailure | src/protocols/s3/curl.cpp:1507-1531 | A part retried with success holds the wanted bytes if and only if the body of the failed answer was the front of them |
| ParallelGets.RangeRight | src/protocols/s3/curl.cpp:1533-1582 | A range of which no part is given up is right if and only if every part was well answered |
| ParallelGets.SmoothRange | src/protocols/s3/curl.cpp:1533-1582 | If every part is answered with success, none is given up and all are well answered |
| ParallelGets.SilentRange | src/protocols/s3/curl.cpp:1533-1582 | If nobody answers, the download of any range is a success that changes nothing |
| ParallelGets.PerformStep | src/protocols/s3/curl.cpp:4330-4351 | Performing any request of a round brings its part to its answer and shows in no other part |
| ParallelGets.ReadStep | src/protocols/s3/curl.cpp:4217-4289 | Reading an answer drops the part when it is over, queues the rest of it, or gives it up |
| ParallelGets.MultiGet.Perform | src/protocols/s3/curl.cpp:4330-4351 | One thread: the request for a part changes its range only |
| ParallelGets.MultiGet.MultiPerform | src/protocols/s3/curl.cpp:4143-4215 | In whatever order the threads get through, every part comes to its own answer |
| ParallelGets.MultiGet.ParallelRetry | src/protocols/s3/curl.cpp:1507-1531 | The new request starts at the advanced position of the old one and ends where that did; it is refused exactly when the tries are used up |
| ParallelGets.MultiGet.MultiRead | src/protocols/s3/curl.cpp:4217-4289 | Queues exactly the parts to be asked for again, from where they stopped; fails only if a part is given up |
| ParallelGets.MultiGet.Request | src/protocols/s3/curl.cpp:4291-4326 | Ends, and on success every part has come to what it does on its own |
| ParallelGets.GroupOver | src/protocols/s3/curl.cpp:1552-1581 | Groups of parts one after the other make up the range |
| ParallelGets.SetUpGroup | src/protocols/s3/curl.cpp:1556-1573 | The set-up loop makes the parts of a group |
| ParallelGets.ParallelGetObjectRequest | src/protocols/s3/curl.cpp:1533-1582 | Touches nothing outside the range; succeeds exactly if no part is given up, and then the range holds what each part came to on its own |
| ParallelGets.ErrorBodyStays | src/protocols/s3/curl.cpp:1507-1531 | A concrete part whose error body stays in the file although the download succeeds |
| Answers.TriedEnds | src/protocols/s3/curl.cpp:2275-2459 | Code, position, result and number of tries of a request, and the bytes it writes, depend on the answers alone |
| Answers.GivenUpMeans | src/protocols/s3/curl.cpp:4217-4289 | Whether a part is given up depends on the answers alone |
| Answers.SureMeans | src/protocols/s3/curl.cpp:4217-4289 | The condition `Sure` on the answers makes every content of the local file end well; and if one that is wrong in every byte ends well, it holds |
| Answers.UnsurePart | src/protocols/s3/curl.cpp:4217-4289 | Answers that break the condition leave a part that counts as done and is wrong, for some content of the local file |
| Answers.PromptSure | src/protocols/s3/curl.cpp:4217-4289 | If every request ends in a success, or is tried again having left only wanted bytes, every part is sure |
| Transfers.CompleteMeans | src/protocols/s3/curl.cpp:4217-4289 | Honest answers are complete if and only if every part not given up holds its bytes, whatever was in the local file |
| Transfers.PromptIsComplete | src/protocols/s3/curl.cpp:4217-4289 | A condition on each request by itself under which the answers are complete |
| Transfers.CompleteRange | src/protocols/s3/curl.cpp:1533-1582 | Then every download of a range that reports success is right |
| Transfers.WorkingIsComplete | src/protocols/s3/curl.cpp:1533-1582 | Where every request succeeds in the end that is so |
| Transfers.Fetch | src/protocols/s3/fdcache.cpp:1242-1257 | One request or parallel parts, by size: exactly when it reports success, and exactly when that leaves the object's bytes |
| Transfers.FillFile | src/protocols/s3/fdcache.cpp:628-643 | Success zeroes exactly the range; nothing outside it changes; it succeeds exactly if no pwrite of those needed fails, and one that writes nothing is repeated |
| FdEntities.View | src/protocols/s3/fdcache.cpp:1214-1270 | What a partly loaded local file stands for |
| FdEntities.ResizedIsTruncated | src/protocols/s3/fdcache.cpp:835-866 | Extending an entity gives zeros, as for a plain file, if and only if no remote byte shows through |
| FdEntities.ResizeView | src/protocols/s3/fdcache.cpp:840-866 | Resizing file and flags together resizes the flat file |
| FdEntities.StoredView | src/protocols/s3/fdcache.cpp:1782-1796 | Writing and marking as loaded overwrites the flat file |
| FdEntities.UnloadedBytesDoNotMatter | src/protocols/s3/fdcache.cpp:1234-1256 | A failed download changes nothing of the flat file |
| FdEntities.BlankBytesMayBeMarked | src/protocols/s3/fdcache.cpp:1262-1270 | Marking a run as loaded keeps the flat file if and only if its local bytes are what they stood for |
| FdEntities.RunsLoading | src/protocols/s3/fdcache.cpp:1227-1275 | Loading the unloaded runs loads the window and nothing else |
| FdEntities.RunsBelow | src/protocols/s3/fdcache.cpp:1234-1268 | No run reaches past the original size exactly when no missing byte does |
| FdEntities.RunFilled | src/protocols/s3/fdcache.cpp:1234-1267 | A fetched part followed by zeros is what the run stands for if and only if the part is right |
| FdEntities.ContentStep | src/protocols/s3/fdcache.cpp:1227-1275 | What one run got wrong no later run puts right |
| FdEntities.RightMeans | src/protocols/s3/fdcache.cpp:1227-1275 | The condition of a load, spelled out: every parallel part of every run is well answered |
| FdEntities.LocalIsView | src/protocols/s3/fdcache.cpp:1515-1639 | The local file is the flat file if and only if every unloaded byte is what it stands for |
| FdEntities.FdEntity.constructor | src/protocols/s3/fdcache.cpp:645-663 | A new entity is closed and unmodified |
| FdEntities.FdEntity.Open | src/protocols/s3/fdcache.cpp:821-1017 | First open: the remote object cut or zero-extended; further open: the flat file resized, and exactly what the original size becomes |
| FdEntities.FdEntity.FirstOpen | src/protocols/s3/fdcache.cpp:935-1004 | Nothing is loaded, the flat file is the object |
| FdEntities.FdEntity.Reopen | src/protocols/s3/fdcache.cpp:835-868 | Keeps or resizes the flat file and keeps it ready for a flush; the original size never grows |
| FdEntities.FdEntity.ReserveDiskSpace | src/protocols/s3/fdcache.cpp:1643-1665 | Keeps the flat file if space is found at once or the file is modified; otherwise it goes back to the object |
| FdEntities.RunsStop | src/protocols/s3/fdcache.cpp:1227-1275 | The loop loads the runs in front of the first one that fails, and it succeeds if none does |
| FdEntities.FdEntity.LoadRun | src/protocols/s3/fdcache.cpp:1234-1270 | When it succeeds; success or not, changes the run at most; keeps the flat file exactly if the download of the run was right; clears the modify flag if the run reaches past the original size |
| FdEntities.FdEntity.FillRun | src/protocols/s3/fdcache.cpp:1234-1267 | Succeeds exactly if download and filling do; then the local bytes of the run are what they stand for if and only if its download was right |
| FdEntities.FdEntity.FillRest | src/protocols/s3/fdcache.cpp:1262-1270 | Zeros past the original size, and with them the modify flag goes |
| FdEntities.FdEntity.Load | src/protocols/s3/fdcache.cpp:1214-1277 | Succeeds exactly if every run can be loaded; if not, exactly the runs in front of the first failing one are; when the flat file is kept and when the modify flag survives, exactly, failed loads included |
| FdEntities.FdEntity.LoadRuns | src/protocols/s3/fdcache.cpp:1227-1275 | The loop of Load stops at the first run that fails: which runs are loaded, whether they are right, and what is left of the modify flag |
| FdEntities.FdEntity.Read | src/protocols/s3/fdcache.cpp:1667-1726 | A successful read returns the bytes of the flat file; with disk space it succeeds exactly if the bytes are loaded or what it loads ahead can be; it keeps the flat file if and only if what it loads ahead is right; a read of loaded bytes loads nothing |
| FdEntities.FdEntity.MakeReadable | src/protocols/s3/fdcache.cpp:1681-1715 | On success every byte asked for is loaded; flags, content and modify flag as for Read |
| FdEntities.FdEntity.PrefetchSize | src/protocols/s3/fdcache.cpp:1682-1693 | At least what is asked for, and inside the file if that is |
| FdEntities.FdEntity.Write | src/protocols/s3/fdcache.cpp:1728-1833 | Overwrites the flat file, complete or short; a complete write leaves one loaded page; exactly when it stays marked as modified; when it is complete |
| FdEntities.FdEntity.LoadStoreLoad | src/protocols/s3/fdcache.cpp:1755-1812 | Loading in front, writing, loading behind: the flat file is overwritten and nothing else changes |
| FdEntities.FdEntity.StoreThenLoad | src/protocols/s3/fdcache.cpp:1782-1812 | The part of a write after the loading in front: once complete, every byte is loaded |
| FdEntities.FdEntity.Grow | src/protocols/s3/fdcache.cpp:1741-1750 | Extends the flat file up to the start of the write |
| FdEntities.FdEntity.StoreBytes | src/protocols/s3/fdcache.cpp:1784-1798 | The pwrite and its mark overwrite the flat file |
| FdEntities.FdEntity.RowFlush | src/protocols/s3/fdcache.cpp:1515-1639 | Whatever the answers, the server holds what it held or the local file, and after a success the local file, forced or not; that is the flat file if and only if every unloaded local byte is what it stands for; result and server of a single PUT, exactly; the part count check |
| FdRuns.Step | src/protocols/s3/fdcache.cpp:821-1833 | Every client call does to the flat file what it does to a plain byte array; what a flush returns; what becomes of the flags that decide about the next flush |
| FdRuns.Run | src/protocols/s3/fdcache.cpp:821-1833 | Whole runs on an open entity are explained by a plain byte array, and every flush uploads exactly when it has to; where the outside world works, every call succeeds |
| FdRuns.OpenAndRun | src/protocols/s3/fdcache.cpp:821-1833 | From a first open on, if the answers are complete, all reads and uploads of a run are those of a plain array that started as the object; every flush uploads exactly when it has to; where the outside world works, the answers are complete and every call succeeds |
| FdRuns.SteadyRuns | src/protocols/s3/fdcache.cpp:1515-1639 | If no open makes the file longer and every write completes, the stretch is steady, and a write is pending exactly if one has come since the last upload |
| FdRuns.RunStep | src/protocols/s3/fdcache.cpp:821-1833 | One more call keeps what a run has established, and is explained by it |
| FdRuns.WriteThenFlush | src/protocols/s3/fdcache.cpp:1263-1270 | A complete write is sent by the next flush if and only if no byte missing behind it lies past the original size |
| FdRuns.LostUpdate | src/protocols/s3/fdcache.cpp:1263-1270 | A concrete write that is never sent |
| FdRuns.LostByLoad | src/protocols/s3/fdcache.cpp:1263-1270 | A concrete write lost because the file was made longer and loaded after it |
| FdRuns.LoadUnanswered | src/protocols/s3/fdcache.cpp:1244-1273 | If nobody answers, loading a large file reports success, marks every byte as loaded, and the flat file is not the object |
| FdRuns.OpenCut | src/protocols/s3/fdcache.cpp:821-1017 | A first or further open with a new size leaves the object, or the flat file, cut or zero-extended |
| FdRuns.Truncate | src/protocols/s3/fdcache.cpp:821-1017 | A truncation (the calls of s3fs.cpp:2097-2165: open, for the first time or again, load, flush) that succeeds leaves the object cut or zero-extended, on the server too; exactly when it gets to its upload; one that fails keeps the original size |
| FdRuns.StaleBytes | src/protocols/s3/fdcache.cpp:835-868 | A truncation whose load fails, as it does where every request is refused, and after which a byte cut off shows up again |
| FdRuns.Losses | src/protocols/s3/fdcache.cpp:1214-1277 | On concrete networks, without any condition: two complete writes that no flush sends, and a byte that shows up again |
| FdManagers.Entity.Dup | src/protocols/s3/fdcache.cpp:752-762 | Counts one more reference on an open entity |
| FdManagers.Entity.Open | src/protocols/s3/fdcache.cpp:835-868 | A first open counts one, a further one adds one, a failed one changes nothing |
| FdManagers.Entity.Close | src/protocols/s3/fdcache.cpp:713-750 | Gives up one reference; the last one closes; aborts exactly on underflow |
| FdManagers.FdManager.FindKey | src/protocols/s3/fdcache.cpp:2181-2197 | By path first, then among the open entities if there is no cache directory |
| FdManagers.FdManager.Open | src/protocols/s3/fdcache.cpp:2168-2245 | Exactly when an entity is returned; the count of an open entity stays the number of handles held; all other entities keep theirs; a creation that fails leaves its entity in the map, closed |
| FdManagers.FdManager.OpenFound | src/protocols/s3/fdcache.cpp:2199-2243 | An entity of the map gains one handle or none; no underflow |
| FdManagers.FdManager.OpenNew | src/protocols/s3/fdcache.cpp:2205-2244 | A new entity is mapped under one key; it stays there, closed, if its open fails |
| FdManagers.FdManager.GetFdEntity | src/protocols/s3/fdcache.cpp:2136-2166 | Finds by path and descriptor; the entity found gains one handle |
| FdManagers.FdManager.ExistOpen | src/protocols/s3/fdcache.cpp:2247-2274 | Opens only what exists; counts stay exact |
| FdManagers.FdManager.Close | src/protocols/s3/fdcache.cpp:2290-2322 | Gives back a handle; the last one closes the entity and takes it out of the map |
| FdManagers.Step | src/protocols/s3/fdcache.cpp:2136-2322 | Every call keeps counts equal to handles held, without underflow |
| FdManagers.Run | src/protocols/s3/fdcache.cpp:2136-2322 | Any run from an empty manager: the abort is not reached, counts are exact, and all mapped entities are open if and only if each one left by a failed creation has been given back |
| FdManagers.ClosedEntityHandedOut | src/protocols/s3/fdcache.cpp:2232-2244 | A concrete run in which Open returns a closed entity |
| MultiPerform.InitHolds | src/protocols/s3/curl.cpp:4143-4150 | The invariant holds at the start |
| MultiPerform.WorkerKeeps | src/protocols/s3/curl.cpp:4330-4351 | Every step of a worker keeps the invariant: permits conserved, each worker recorded once, the lock exclusive |
| MultiPerform.MainKeeps | src/protocols/s3/curl.cpp:4151-4215 | Every step of the main thread keeps the invariant |
| MultiPerform.StepKeeps | src/protocols/s3/curl.cpp:4143-4215 | Every move of any thread, a failed thread creation included, keeps it |
| MultiPerform.Bounded | src/protocols/s3/psemaphore.h:54-71 | On every schedule at most N workers have not posted, and the draining loop ends only when all have |
| MultiPerform.LockOwnerMoves | src/protocols/s3/curl.cpp:4346-4350 | A worker inside the lock can always go on |
| MultiPerform.MainInLockMoves | src/protocols/s3/curl.cpp:4160-4178 | Joining while holding the lock cannot block for ever: a recorded worker needs the lock no more |
| MultiPerform.StuckMeans | src/protocols/s3/curl.cpp:4143-4215 | A state where nobody can move is the return with every worker joined exactly once, or the loss of a permit |
| MultiPerform.MeasureDrops | src/protocols/s3/curl.cpp:4143-4215 | Every move of any thread leaves less to do |
| MultiPerform.MultiPerformTerminates | src/protocols/s3/curl.cpp:4143-4215 | Every schedule ends within 10n + N + 8 moves, and has returned if and only if no thread creation failed |
| Keywords.PartNumberReadBack | src/protocols/s3/string_util.cpp:210-232 | The part number is read back from the URL unless the path holds the keyword; then the lookup fails |
| Keywords.UploadIdReadBack | src/protocols/s3/string_util.cpp:210-232 | The same for the upload id |
| Keywords.UrlReadsBack | src/protocols/s3/curl.cpp:1346-1352 | Number and upload id are recovered under exactly those conditions |
| Multipart.PutRequest.UploadReadCallback | src/protocols/s3/curl.cpp:861-892 | Hands out the next bytes of the range, whatever the system calls return, and as many as fit if they work |
| Multipart.PutRequest.Send | src/protocols/s3/curl.cpp:861-892 | What one attempt has sent is the front of the part's range; all of it if curl asks often enough |
| Multipart.PutRequest.Perform | src/protocols/s3/curl.cpp:1586-1612 | The server holds the part's own range or what it held before; an ETag means it holds the part |
| Multipart.PutRequest.RequestPerform | src/protocols/s3/curl.cpp:2275-2459 | The same over all tries; the first final answer decides |
| Multipart.PutRequest.RemakeHandle | src/protocols/s3/curl.cpp:2084-2117 | A retry inside the request rewinds to the start of the part and forgets the headers |
| Multipart.SplitLoop | src/protocols/s3/curl.cpp:1454-1483 | The loop makes the parts one by one, each with an empty slot |
| Multipart.SplitFile | src/protocols/s3/curl.cpp:1454-1483 | Numbered parts end to end over the whole file, all but the last of the part size, with one empty slot each |
| Multipart.StartOfPart | src/protocols/s3/curl.cpp:1454-1465 | Part k starts at k times the part size and ends within the file |
| Multipart.AtMostTenThousand | src/protocols/s3/fdcache.cpp:1577-1581 | The size check of RowFlush keeps the parts within 10000 |
| Multipart.RetryKeepsPart | src/protocols/s3/curl.cpp:1337-1377 | A retry keeps number, slot and range, and is refused exactly when the tries are used up or the path holds a keyword |
| Multipart.MultiCurl.MultiPerform | src/protocols/s3/curl.cpp:4143-4215 | Whatever the order of completion, the server holds only right bytes under each number, and every slot keeps its request |
| Multipart.MultiCurl.PerformAt | src/protocols/s3/curl.cpp:4330-4351 | One thread: its own slot and part only |
| Multipart.MultiCurl.MultiRead | src/protocols/s3/curl.cpp:4217-4289 | A slot gets an ETag only for a part the server holds; what is queued again has a higher retry count; no slot is forgotten unless an answer neither fills it nor is tried again |
| Multipart.MultiCurl.Request | src/protocols/s3/curl.cpp:4291-4326 | Ends within retries + 1 rounds whatever the answers; if every part is taken or refused in a way that is tried again, success means all slots are filled |
| Multipart.CompleteBody | src/protocols/s3/curl.cpp:3502-3523 | The completing body is built if and only if every slot has an ETag, and lists all parts in order |
| Multipart.FrontAssembled | src/protocols/s3/curl.cpp:3512-3523 | The first k stored parts put together are the front of the file |
| Multipart.ParallelMultipartUploadRequest | src/protocols/s3/curl.cpp:1416-1505 | Success means the assembled object is the file; it succeeds when every part does |
| Uploads.PutObject.Send | src/protocols/s3/curl.cpp:3096-3211 | One attempt of a PUT sends the front of the file, as much as curl asks for |
| Uploads.PutObject.RequestPerform | src/protocols/s3/curl.cpp:2275-2459 | Result, and whether the server holds the object then, are those of the tries one after the other |
| Uploads.SuccessKept | src/protocols/s3/curl.cpp:2275-2459 | A PUT that reports success has left the object on the server |
| Uploads.KeptUnanswered | src/protocols/s3/curl.cpp:2275-2459 | A concrete PUT that reports an error although the server holds the object |
| Uploads.Upload | src/protocols/s3/fdcache.cpp:1593-1601 | One PUT or parts, by size: the server holds what it held or the file, and after a success the file |
| PartSizing.NextPart | src/protocols/s3/fdcache.cpp:1335-1352 | The next part is not empty and lies within the page |
| PartSizing.CutPage | src/protocols/s3/fdcache.cpp:1332-1352 | The loop ends and cuts the page into its parts |
| PartSizing.PageInParts | src/protocols/s3/fdcache.cpp:1332-1352 | The parts add up to the page; none is under 5 MiB unless the whole page is; none is over 5 GiB if the configured size is not |
| PartSizing.WithinFiveGigabytes | src/protocols/s3/fdcache.cpp:1345-1352 | All parts of all pages stay within 5 GiB if and only if the configured size does |
| StatCaches.BeforeIsStrictWeakOrder | src/protocols/s3/cache.cpp:90-136 | The eviction order is one that std::sort may be given |
| StatCaches.OldestAreCandidates | src/protocols/s3/cache.cpp:526-541 | For every cache, pins included, the candidates are the `Limit` oldest keys: none comes after a key left out |
| StatCaches.LimitIs | src/protocols/s3/cache.cpp:526-541 | The limit is the largest i such that i plus the pins among the first i keys is at most the number asked for |
| StatCaches.LimitReached | src/protocols/s3/cache.cpp:526-541 | The limit grows until all keys or as many as are wanted are reached, and never exceeds the number asked for |
| StatCaches.WantedBound | src/protocols/s3/cache.cpp:526-541 | Each pinned key lowers the number wanted by at most one |
| StatCaches.CandidateMeans | src/protocols/s3/cache.cpp:526-541 | A key is a candidate only if fewer than `Limit` keys come before it, and is one if at most `Limit` do not come after it |
| StatCaches.PinnedEntriesLost | src/protocols/s3/cache.cpp:526-541 | If no two entries have the same age, the pinned entries lost are exactly those with fewer than `Limit` entries before them |
| StatCaches.PinnedEntryEvicted | src/protocols/s3/cache.cpp:530-540 | A concrete cache from which a pinned entry is evicted |
| StatCaches.StatCache.DelStat | src/protocols/s3/cache.cpp:558-588 | Removes the path and its twin with or without a slash, and nothing else |
| StatCaches.StatCache.TruncateCache | src/protocols/s3/cache.cpp:500-556 | Removes the expired, then as many as `Limit` says, none of them after an entry kept, pinned entries included |
| StatCaches.StatCache.EraseOldest | src/protocols/s3/cache.cpp:524-552 | Step 3 alone |
| StatCaches.ShrunkSize | src/protocols/s3/cache.cpp:524-552 | Without pins C - 1 entries are left; each pinned one may add one to that |
| StatCaches.StatCache.PickCandidates | src/protocols/s3/cache.cpp:526-541 | The candidate loop computes the candidates |
| StatCaches.StatCache.AddStat | src/protocols/s3/cache.cpp:356-426 | The entry added is there, pinned or not; what becomes of all others in each case; how many there are then |
| StatCaches.StatCache.ChangeNoTruncateFlag | src/protocols/s3/cache.cpp:480-498 | Changes the pins of one entry by one, never below zero |
| StatCaches.Run | src/protocols/s3/cache.cpp:356-588 | After every step of any run there are at most C + 1 entries and one for each pin so far |
| StatCaches.Overfill | src/protocols/s3/cache.cpp:356-426 | For every C, C + 1 new entries all stay |
| HeaderLists.SortInsert | src/protocols/s3/curl.cpp:4378-4438 | The walk puts the header in its place or replaces the one with the same key |
| HeaderLists.InsertedAscending | src/protocols/s3/curl.cpp:4397-4436 | An insert keeps the keys strictly ascending |
| HeaderLists.InsertedLookup | src/protocols/s3/curl.cpp:4397-4436 | The inserted header is found under its key, every other key finds what it found before |
| HeaderLists.BuiltInOrder | src/protocols/s3/curl.cpp:4378-4438 | After any inserts the keys ascend strictly and each holds the last value inserted |
| HeaderLists.GetSortedHeaderKeys | src/protocols/s3/curl.cpp:4440-4465 | Computes the text of the signed keys |
| HeaderLists.GetCanonicalHeaders | src/protocols/s3/curl.cpp:4485-4524 | Computes the text of the canonical headers |
| HeaderLists.KeysCut | src/protocols/s3/curl.cpp:4440-4465 | The signed keys, cut at the separators, are the folded keys of the headers with a value |
| HeaderLists.LinesCut | src/protocols/s3/curl.cpp:4485-4524 | The keys of the canonical lines are the same |
| HeaderLists.KeptInOrder | src/protocols/s3/curl.cpp:4397-4436 | The folded keys of an ascending list are in strict code order |
| HeaderLists.SignatureTextsAgree | src/protocols/s3/curl.cpp:4440-4524 | Whatever was inserted, both texts list the same keys in strict code order |
| Wtf8.MasksAreRanges | src/protocols/s3/string_util.cpp:480-520 | The bit mask tests are byte ranges |
| Wtf8.AcceptsGrammar | src/protocols/s3/string_util.cpp:475-521 | A sequence is accepted exactly by the grammar in section 4 of RFC 3629, or if it is a surrogate D900 to DFFF |
| Wtf8.Encode | src/protocols/s3/string_util.cpp:462-531 | Computes the encoding and whether it was needed |
| Wtf8.Decode | src/protocols/s3/string_util.cpp:542-567 | Computes the decoding and whether it changed anything |
| Wtf8.EncodeIdempotent | src/protocols/s3/string_util.cpp:462-531 | Encoding twice is encoding once |
| Wtf8.RoundTrip | src/protocols/s3/string_util.cpp:462-567 | Decoding gives back a name if and only if it holds no code point E000 to E0FF |
| Wtf8.FlagMeansChanged | src/protocols/s3/string_util.cpp:462-531 | The flag is set if and only if the encoding differs from the name |
| Wtf8.CheckOnlyMeaning | src/protocols/s3/string_util.cpp:482-490 | Without a result string the answer is right exactly for ASCII names and names that need encoding |
| Base64.RoundTrip | src/protocols/s3/string_util.cpp:358-445 | Decoding the encoding gives back every byte string (section 4 of RFC 4648) |
| Base64.Encode | src/protocols/s3/string_util.cpp:358-385 | Writes the encoding and its terminator inside the buffer sized beforehand |
| Base64.EncodeInto | src/protocols/s3/string_util.cpp:368-384 | The writing loop |
| Base64.Decode | src/protocols/s3/string_util.cpp:414-445 | Writes the decoding, its length and a terminator inside the buffer |
| Base64.DecodeInto | src/protocols/s3/string_util.cpp:422-444 | The writing loop, for any text |
| UrlCodec.UrlEncode | src/protocols/s3/string_util.cpp:108-129 | Computes the percent-encoding of a path |
| UrlCodec.UrlDecode | src/protocols/s3/string_util.cpp:163-185 | Computes the decoding; an escape cut short ends it |
| UrlCodec.RoundTrip | src/protocols/s3/string_util.cpp:108-185 | Decoding gives back every byte string |
| UrlCodec.Encode2Idempotent | src/protocols/s3/string_util.cpp:137-161 | Encoding a query twice is encoding it once |
| UrlCodec.PathHasNoQueryCharacters | src/protocols/s3/string_util.cpp:108-129 | An encoded path holds neither '=' nor '&' nor '?' |

## Left out

- PageText.ReadIsWellFormed: a negative number in a stat text ends the reading with an error of the model's own; the source hands it to SetPageLoadedStatus.
- PageText.Load: a number that cannot be read is an error result; the source throws, and leaves the pages read so far.
- FdEntities.FdEntity.Write: stops where the source goes over to an uncached multipart upload because the disk is full; free disk space is an answer, not a byte count.
- FdEntities.FdEntity.Read: without force_load, which no caller sets.
- FdEntities.FdEntity.RowFlush: after a failed upload the original size may exceed the object, and nothing more is promised then; the branch of a multipart upload already under way is not modelled.
- FdEntities.FdEntity.Open: only the temporary-file branch of a first open, as FirstOpen; setting the mtime is left out.
- FdEntities.FdEntity.FirstOpen: without a cache directory; the cache file, its stat file and the mirror file are not modelled, nor is setting the mtime.
- FdEntities.FdEntity.ReserveDiskSpace: its ftruncate is assumed to work.
- FdRuns.Run: assumes disk space and uploads that work in the end; after a write that failed half way it says of the next upload only what the local file was.
- FdManagers.Run: stops at a random temporary name that is already in use; Rename and ChangeEntityToTempPath are not modelled.
- ParallelGets.MultiGet.MultiPerform: each request of a round is performed as a whole, in any order; finer interleavings of their writes are the subject of DisjointWritesCommute.
- Multipart.ParallelMultipartUploadRequest: a completing request that reports an error is taken not to have been carried out.
- Uploads.PutObject.RequestPerform: MD5 sums, headers and failing dup, fstat or fdopen calls are not modelled.
- Multipart.RetryKeepsPart: the source also refuses a retry whose setup fails.
- Multipart.MultiCurl.MultiPerform: each request is performed as a whole, in any order; the interleaving of the threads' steps is the subject of the module MultiPerform.
- StatCaches.StatCache.AddStat: for one thread; the content of an entry, GetStat and the no-object entries are not modelled.
- StatCaches.StatCache.PickCandidates: std::sort may order equal entries either way; the model keeps them in order, and no result depends on it.
- HeaderLists.SortInsert: the linked list is a sequence; pointers and failed allocations are not modelled.
- FdManagers.Entity.Open: only descriptor and reference count; the file and page half of the same object is FdEntities.FdEntity, and the two halves are not put together.
- Maps and searches over the manager's map visit entries in any order instead of ascending keys.
- Error numbers of failed system calls other than those named are one value.
- The test in Load that stops at a run past the window, which no run of GetUnloadedPages meets.
- GetUnloadedPages always starts from an empty list, as its only caller does.
- OpenAndLoadAll, FindUnloadedPage, NoCacheLoadAndPost as a whole (only its part sizes), the copy-part paths, and a part whose MD5 sum cannot be made.
- Locks other than that of MultiPerform, and the contents of libcurl, TLS, HMAC and XML.
- The command loop, the other back ends, option parsing and logging: they add easy members only.
