/** One open object: a partly downloaded local file that has to behave like a flat file. */
module FdEntities {
  import opened Numbers
  import opened Text
  import opened Pages
  import opened PageLists
  import opened LocalFiles
  import opened Requests
  import opened Downloads
  import opened ParallelGets
  import opened Transfers
  import opened Uploads

  const EBADF := 9
  const ENOSPC := 28
  const MAX_MULTIPART_CNT: nat := 10 * 1000

  // ---------------------------------------------------------------------
  // What a partly loaded file stands for
  // ---------------------------------------------------------------------

  /** n bytes none of which is loaded: the remote object below orgSize, zeros from there on. */
  function Blank(n: nat, remote: seq<byte>, orgSize: nat): (r: seq<byte>)
    ensures |r| == n
    ensures forall i :: 0 <= i < n ==> r[i] == if i < orgSize && i < |remote| then remote[i] else 0
  {
    seq(n, i => if 0 <= i < orgSize && i < |remote| then remote[i] else 0)
  }

  /** A loaded byte is the local byte; an unloaded byte is the blank one. */
  function View(flags: seq<bool>, data: seq<byte>, remote: seq<byte>, orgSize: nat): (r: seq<byte>)
    requires |flags| == |data|
    ensures |r| == |flags|
    ensures forall i :: 0 <= i < |r| ==> r[i] == if flags[i] then data[i] else Blank(|flags|, remote, orgSize)[i]
  {
    seq(|flags|, i requires 0 <= i < |flags| => if flags[i] then data[i] else Blank(|flags|, remote, orgSize)[i])
  }

  lemma NothingLoadedView(data: seq<byte>, remote: seq<byte>, orgSize: nat)
    ensures View(Repeat(|data|, false), data, remote, orgSize) == Blank(|data|, remote, orgSize)
  {
  }

  lemma NothingLoadedResized(fs: seq<bool>, n: nat)
    requires forall i :: 0 <= i < |fs| ==> !fs[i]
    ensures ResizedFlags(fs, n, false) == Repeat(n, false)
  {
  }

  /** Cut to n bytes, or extend with blank bytes. */
  function Resized(c: seq<byte>, n: nat, remote: seq<byte>, orgSize: nat): (r: seq<byte>)
    ensures |r| == n
  {
    if n <= |c| then c[..n] else c + Blank(n, remote, orgSize)[|c|..]
  }

  /** Extending gives zeros, as it does for a plain file, if and only if the blank bytes are zeros;
      they are when the original size does not reach past the end. */
  lemma ResizedIsTruncated(c: seq<byte>, n: nat, remote: seq<byte>, orgSize: nat)
    ensures Resized(c, n, remote, orgSize) == Truncated(c, n)
      <==> forall i :: |c| <= i < n && i < orgSize && i < |remote| ==> remote[i] == 0
    ensures orgSize <= |c| ==> Resized(c, n, remote, orgSize) == Truncated(c, n)
  {
    var r, t := Resized(c, n, remote, orgSize), Truncated(c, n);
    if r == t {
      forall i | |c| <= i < n && i < orgSize && i < |remote| ensures remote[i] == 0 {
        assert r[i] == t[i];
      }
    }
  }

  /** Whatever happens to unloaded bytes of the local file, it stands for the same content. */
  lemma UnloadedBytesDoNotMatter(flags: seq<bool>, a: seq<byte>, b: seq<byte>, remote: seq<byte>, orgSize: nat,
                                 run: Page)
    requires |flags| == |a| == |b| && run.Next() <= |flags|
    requires forall i :: run.offset <= i < run.Next() ==> !flags[i]
    requires SameOutside(a, b, run.offset, run.bytes)
    ensures View(flags, a, remote, orgSize) == View(flags, b, remote, orgSize)
  {
  }

  /** Resizing the local file and its flags resizes what they stand for. */
  lemma ResizeView(flags: seq<bool>, data: seq<byte>, n: nat, remote: seq<byte>, orgSize: nat, orgSize': nat)
    requires |flags| == |data|
    requires orgSize' == orgSize || orgSize' == Min(n, orgSize)
    ensures View(ResizedFlags(flags, n, false), Truncated(data, n), remote, orgSize')
         == Resized(View(flags, data, remote, orgSize), n, remote, orgSize')
  {
    var a := View(ResizedFlags(flags, n, false), Truncated(data, n), remote, orgSize');
    var b := Resized(View(flags, data, remote, orgSize), n, remote, orgSize');
    forall i | 0 <= i < n ensures a[i] == b[i] {
    }
  }

  /** Every byte that is not loaded is in the local file what it stands for. */
  ghost predicate BlankLocally(flags: seq<bool>, data: seq<byte>, remote: seq<byte>, orgSize: nat)
    requires |flags| == |data|
  {
    forall i :: 0 <= i < |data| && !flags[i] ==> data[i] == Blank(|data|, remote, orgSize)[i]
  }

  /** Then and only then is the local file the flat file. */
  lemma LocalIsView(flags: seq<bool>, data: seq<byte>, remote: seq<byte>, orgSize: nat)
    requires |flags| == |data|
    ensures data == View(flags, data, remote, orgSize) <==> BlankLocally(flags, data, remote, orgSize)
  {
    var v := View(flags, data, remote, orgSize);
    if data == v {
      assert forall i :: 0 <= i < |data| && !flags[i] ==> data[i] == v[i];
    }
  }

  /** Every byte that is not loaded is a zero past the original size. */
  ghost predicate OnlyZerosMissing(flags: seq<bool>, data: seq<byte>, orgSize: nat)
    requires |flags| == |data|
  {
    forall i :: 0 <= i < |data| && !flags[i] ==> orgSize <= i && data[i] == 0
  }

  /** Zeros past the original size are still zeros. */
  ghost predicate ZerosKept(before: seq<byte>, after: seq<byte>, orgSize: nat) {
    |after| == |before| && forall i :: orgSize <= i < |after| && before[i] == 0 ==> after[i] == 0
  }

  lemma ResizeKeepsZeros(flags: seq<bool>, data: seq<byte>, n: nat, orgSize: nat, orgSize': nat)
    requires |flags| == |data| && OnlyZerosMissing(flags, data, orgSize)
    requires orgSize <= |data| && orgSize' <= orgSize
    ensures OnlyZerosMissing(ResizedFlags(flags, n, false), Truncated(data, n), orgSize')
  {
  }

  /** Overwriting the local file and marking the bytes as loaded overwrites what the file stands for. */
  lemma StoredView(flags: seq<bool>, data: seq<byte>, remote: seq<byte>, orgSize: nat, start: nat, bytes: seq<byte>)
    requires |flags| == |data| && start <= |data|
    ensures View(Paint(flags, start, |bytes|, true), Overwrite(data, start, bytes), remote, orgSize)
         == Overwrite(View(flags, data, remote, orgSize), start, bytes)
  {
  }

  /** How many bytes of a run lie below the original size. */
  function Need(run: Page, orgSize: nat): (n: nat)
    ensures n <= run.bytes && (0 < n ==> run.offset + n <= orgSize)
  {
    if orgSize <= run.offset then 0 else if run.Next() <= orgSize then run.bytes else orgSize - run.offset
  }

  /** The local bytes of a run are what they stand for. */
  ghost predicate BlankOn(data: seq<byte>, run: Page, remote: seq<byte>, orgSize: nat) {
    forall i :: run.offset <= i < run.Next() && i < |data| ==> data[i] == Blank(|data|, remote, orgSize)[i]
  }

  /** A fetched part followed by zeros is what the run stands for, if and only if the part is right. */
  lemma RunFilled(data: seq<byte>, remote: seq<byte>, orgSize: nat, run: Page, need: nat)
    requires run.Next() <= |data| && orgSize <= |remote| && need == Need(run, orgSize)
    requires need < run.bytes ==> Slice(data, run.offset + need, run.bytes - need) == Zeros(run.bytes - need)
    ensures BlankOn(data, run, remote, orgSize)
       <==> need == 0 || Slice(data, run.offset, need) == remote[run.offset..run.offset + need]
  {
    var part := data[run.offset..run.offset + need];
    if BlankOn(data, run, remote, orgSize) && 0 < need {
      assert forall i :: 0 <= i < need ==> part[i] == data[run.offset + i] == remote[run.offset + i];
    }
    if need == 0 || part == remote[run.offset..run.offset + need] {
      forall i | run.offset <= i < run.Next()
        ensures data[i] == Blank(|data|, remote, orgSize)[i]
      {
        if i < run.offset + need {
          assert part[i - run.offset] == data[i];
        } else {
          assert Slice(data, run.offset + need, run.bytes - need)[i - run.offset - need] == data[i];
        }
      }
    }
  }

  /** The download of a run leaves the right bytes, given what is in the local file. */
  ghost predicate RunRight(data: seq<byte>, run: Page, orgSize: nat, w: Way, remote: seq<byte>) {
    WellFetched(Slice(data, run.offset, Need(run, orgSize)), run.offset, w, remote)
  }

  /** The filling of what lies past the first need bytes of a run, if anything does, reports success. */
  predicate RestFilled(run: Page, need: nat, net: Network)
    requires need <= run.bytes
  {
    need < run.bytes ==> Filled(run.bytes - need, net.fill(run.offset + need, run.bytes - need), 0)
  }

  /** Download and filling of a run report success. */
  ghost predicate RunDone(data: seq<byte>, run: Page, orgSize: nat, w: Way, net: Network) {
    && Fetched(Slice(data, run.offset, Need(run, orgSize)), run.offset, w)
    && RestFilled(run, Need(run, orgSize), net)
  }

  /** A judgement about the loading of a run into a local file. */
  type Verdict = (seq<byte>, Page) -> bool

  /** The first k of these runs meet the judgement. */
  ghost predicate FirstMeet(data: seq<byte>, runs: seq<Page>, k: nat, v: Verdict) {
    forall j :: 0 <= j < k && j < |runs| ==> v(data, runs[j])
  }

  /** Run k is the first one whose loading fails; if k is their number, none does. */
  ghost predicate StopsAt(data: seq<byte>, runs: seq<Page>, done: Verdict, k: nat) {
    k <= |runs| && FirstMeet(data, runs, k, done) && (k < |runs| ==> !done(data, runs[k]))
  }

  /** The loading of the first k runs has not failed, and the modify flag is what they left of it. */
  ghost predicate SoFar(data: seq<byte>, before: bool, dirty: bool, runs: seq<Page>, k: nat, orgSize: nat,
                          done: Verdict)
  {
    FirstMeet(data, runs, k, done) && (dirty <==> before && EndFirst(runs, k, orgSize))
  }

  lemma StopsOnce(data: seq<byte>, runs: seq<Page>, done: Verdict, j: nat, k: nat)
    requires StopsAt(data, runs, done, j) && StopsAt(data, runs, done, k)
    ensures j == k
    ensures k == |runs| <==> FirstMeet(data, runs, |runs|, done)
  {
  }

  /** What may be relied on about a network: nothing incomplete is taken for done, or all transfers
      succeed; and, for any run, whether its loading is right and whether it is taken for done. */
  datatype Promise = Promise(complete: bool, working: bool, right: Verdict, done: Verdict)

  ghost predicate Keeps(p: Promise, net: Network, w: Way, remote: seq<byte>, orgSize: nat) {
    && HonestNet(net, remote) && w.c.get == net.get
    && (p.complete ==> CompleteNet(net, w.c.retries, remote))
    && (p.working ==> WorkingNet(net, w.c.retries))
    && (forall data, run {:trigger RunRight(data, run, orgSize, w, remote)} ::
          p.right(data, run) <==> RunRight(data, run, orgSize, w, remote))
    && (forall data, run {:trigger RunDone(data, run, orgSize, w, net)} ::
          p.done(data, run) <==> RunDone(data, run, orgSize, w, net))
  }

  /** All there is to be relied on. */
  ghost function Promises(net: Network, w: Way, remote: seq<byte>, orgSize: nat): (p: Promise)
    ensures HonestNet(net, remote) && w.c.get == net.get ==> Keeps(p, net, w, remote, orgSize)
  {
    Promise(CompleteNet(net, w.c.retries, remote), WorkingNet(net, w.c.retries),
            (data, run) => RunRight(data, run, orgSize, w, remote), (data, run) => RunDone(data, run, orgSize, w, net))
  }

  lemma WorkingRuns(data: seq<byte>, runs: seq<Page>, orgSize: nat, p: Promise, net: Network, w: Way, remote: seq<byte>)
    requires Keeps(p, net, w, remote, orgSize) && p.working
    ensures FirstMeet(data, runs, |runs|, p.done)
  {
    forall j | 0 <= j < |runs| ensures p.done(data, runs[j]) {
      WorkingFetch(Slice(data, runs[j].offset, Need(runs[j], orgSize)), runs[j].offset, w);
      assert RunDone(data, runs[j], orgSize, w, net);
    }
  }

  lemma CompleteRun(data: seq<byte>, run: Page, orgSize: nat, w: Way, net: Network, remote: seq<byte>)
    requires w.c.get == net.get && CompleteNet(net, w.c.retries, remote) && orgSize <= |remote|
    requires Fetched(Slice(data, run.offset, Need(run, orgSize)), run.offset, w)
    ensures RunRight(data, run, orgSize, w, remote)
  {
    if 0 < Need(run, orgSize) {
      CompleteFetch(Slice(data, run.offset, Need(run, orgSize)), run.offset, w, net, remote);
    }
  }

  /** The wanted bytes of a run, those below the original size, are there. */
  ghost predicate Arrived(data: seq<byte>, run: Page, need: nat, remote: seq<byte>) {
    need == 0 ||
    (run.offset + need <= |remote| && Slice(data, run.offset, need) == remote[run.offset..run.offset + need])
  }

  /** The download of a run, in the terms of the promise. */
  lemma RunFetched(before: seq<byte>, fetched: seq<byte>, run: Page, need: nat, orgSize: nat, p: Promise,
                   net: Network, w: Way,
                   remote: seq<byte>, ok: bool)
    requires Keeps(p, net, w, remote, orgSize) && need == Need(run, orgSize) && orgSize <= |remote|
    requires ok <==> Fetched(Slice(before, run.offset, need), run.offset, w)
    requires ok && 0 < need ==>
      (WellFetched(Slice(before, run.offset, need), run.offset, w, remote) <==>
         Slice(fetched, run.offset, need) == remote[run.offset..run.offset + need])
    ensures ok ==>
      (Arrived(fetched, run, need, remote) <==> p.right(before, run)) && (p.complete ==> p.right(before, run))
    ensures p.done(before, run) <==> ok && RestFilled(run, need, net)
  {
    assert p.right(before, run) == RunRight(before, run, orgSize, w, remote);
    assert p.done(before, run) == RunDone(before, run, orgSize, w, net);
    if ok && p.complete { CompleteRun(before, run, orgSize, w, net, remote); }
  }

  /** A run after its download and, if it reaches past the original size, its filling. */
  lemma FetchedThenFilled(fetched: seq<byte>, after: seq<byte>, run: Page, need: nat, orgSize: nat, remote: seq<byte>)
    requires need == Need(run, orgSize) && orgSize <= |remote| && run.Next() <= |fetched| == |after|
    requires SameOutside(fetched, after, run.offset + need, run.bytes - need)
    requires need < run.bytes ==> Slice(after, run.offset + need, run.bytes - need) == Zeros(run.bytes - need)
    ensures BlankOn(after, run, remote, orgSize) <==> Arrived(fetched, run, need, remote)
  {
    assert Slice(fetched, run.offset, need) == Slice(after, run.offset, need);
    RunFilled(after, remote, orgSize, run, need);
  }

  lemma FetchKeepsZeros(before: seq<byte>, after: seq<byte>, run: Page, need: nat, orgSize: nat)
    requires need == Need(run, orgSize) && run.Next() <= |before| && SameOutside(before, after, run.offset, need)
    ensures ZerosKept(before, after, orgSize)
  {
  }

  lemma FillKeepsZeros(before: seq<byte>, fetched: seq<byte>, after: seq<byte>, start: nat, size: nat, orgSize: nat)
    requires ZerosKept(before, fetched, orgSize) && |after| == |fetched|
    requires SameOutside(fetched, after, start, size) && ZerosOrOld(fetched, after, start, size)
    ensures ZerosKept(before, after, orgSize)
  {
  }

  /** The verdicts on a run do not depend on what happens outside it. */
  lemma RunStays(before: seq<byte>, after: seq<byte>, run: Page, orgSize: nat, p: Promise, net: Network, w: Way,
                 remote: seq<byte>)
    requires Keeps(p, net, w, remote, orgSize) && SameOn(before, after, run)
    ensures p.right(after, run) == p.right(before, run) && p.done(after, run) == p.done(before, run)
  {
    assert Slice(after, run.offset, Need(run, orgSize)) == Slice(before, run.offset, Need(run, orgSize));
    assert RunRight(after, run, orgSize, w, remote) == RunRight(before, run, orgSize, w, remote);
    assert RunDone(after, run, orgSize, w, net) == RunDone(before, run, orgSize, w, net);
  }

  ghost predicate SameOn(before: seq<byte>, after: seq<byte>, run: Page) {
    |after| == |before| && run.Next() <= |before| && forall i :: run.offset <= i < run.Next() ==> after[i] == before[i]
  }

  /** Marking a run as loaded keeps the content if and only if its local bytes are what they stood for. */
  lemma BlankBytesMayBeMarked(flags: seq<bool>, before: seq<byte>, after: seq<byte>, remote: seq<byte>, orgSize: nat,
                              run: Page)
    requires |flags| == |before| == |after| && run.Next() <= |flags|
    requires SameOutside(before, after, run.offset, run.bytes)
    requires forall i :: run.offset <= i < run.Next() ==> !flags[i]
    ensures var a := View(flags, before, remote, orgSize);
      var b := View(Paint(flags, run.offset, run.bytes, true), after, remote, orgSize);
      |b| == |a| && SameOutside(a, b, run.offset, run.bytes) && (b == a <==> BlankOn(after, run, remote, orgSize))
  {
    var a := View(flags, before, remote, orgSize);
    var b := View(Paint(flags, run.offset, run.bytes, true), after, remote, orgSize);
    assert forall i :: run.offset <= i < run.Next() ==> a[i] == Blank(|flags|, remote, orgSize)[i] && b[i] == after[i];
  }

  /** What differs within one run cannot be put right by the next. */
  lemma ContentStep(first: seq<byte>, now: seq<byte>, next: seq<byte>, run: Page)
    requires |first| == |now| == |next| && run.Next() <= |now| && SameOutside(now, next, run.offset, run.bytes)
    requires forall i :: run.offset <= i < run.Next() ==> now[i] == first[i]
    ensures next == first <==> now == first && next == now
  {
    if next == first {
      assert forall i :: 0 <= i < |now| ==> now[i] == next[i];
    }
  }

  // ---------------------------------------------------------------------
  // Loading run by run
  // ---------------------------------------------------------------------

  /** The end of a window; a size of 0 means "to the end". */
  function WindowEnd(n: nat, start: nat, size: nat): (hi: nat)
    ensures hi <= n
  {
    if size == 0 then n else Min(start + size, n)
  }

  /** Byte i lies in one of the first k runs. */
  ghost predicate InFirst(runs: seq<Page>, k: nat, i: int) {
    exists j :: 0 <= j < k && j < |runs| && runs[j].offset <= i < runs[j].Next()
  }

  /** The first k runs end by size. */
  ghost predicate EndFirst(runs: seq<Page>, k: nat, size: nat) {
    forall j :: 0 <= j < k && j < |runs| ==> runs[j].Next() <= size
  }

  /** fs with the first k runs set. */
  ghost predicate RunsSet(fs: seq<bool>, runs: seq<Page>, k: nat, now: seq<bool>) {
    |now| == |fs| && forall i :: 0 <= i < |fs| ==> (now[i] <==> fs[i] || InFirst(runs, k, i))
  }

  /** What loading a window does to the flags: on success it is loaded; nothing outside changes. */
  ghost predicate Loading(before: seq<bool>, after: seq<bool>, start: nat, size: nat, success: bool) {
    var hi := WindowEnd(|before|, start, size);
    && |after| == |before|
    && (forall i :: 0 <= i < |after| && before[i] ==> after[i])
    && (forall i :: 0 <= i < |after| && !(start <= i < hi) ==> after[i] == before[i])
    && (success ==> forall i :: start <= i < hi ==> after[i])
  }

  /** Every byte of the window that exists is loaded. */
  ghost predicate Within(fs: seq<bool>, start: nat, size: nat) {
    forall i :: start <= i < start + size && i < |fs| ==> fs[i]
  }

  /** Bytes of a loaded window are read from the local file. */
  lemma WithinReads(fs: seq<bool>, data: seq<byte>, remote: seq<byte>, orgSize: nat, start: nat, size: nat)
    requires |fs| == |data| && Within(fs, start, size)
    ensures Slice(data, start, size) == Slice(View(fs, data, remote, orgSize), start, size)
  {
  }

  /** No unloaded byte of the window lies past the original size. */
  ghost predicate NoneMissingPast(fs: seq<bool>, start: nat, size: nat, orgSize: nat) {
    forall i :: start <= i < WindowEnd(|fs|, start, size) && !fs[i] ==> i < orgSize
  }

  /** Flags that agree from start on say the same about that tail. */
  lemma SameTail(a: seq<bool>, b: seq<bool>, start: nat, orgSize: nat)
    requires forall i :: start <= i < |a| ==> i < |b| && a[i] == b[i]
    requires start < |b| ==> |b| <= |a|
    ensures NoneMissingPast(a, start, 0, orgSize) <==> NoneMissingPast(b, start, 0, orgSize)
  {
    if NoneMissingPast(b, start, 0, orgSize) {
      forall i | start <= i < |a| && !a[i] ensures i < orgSize { assert !b[i]; }
    }
    if NoneMissingPast(a, start, 0, orgSize) {
      forall i | start <= i < |b| && !b[i] ensures i < orgSize { assert !a[i]; }
    }
  }

  lemma NextRunSet(fs: seq<bool>, runs: seq<Page>, lo: nat, hi: nat, k: nat, now: seq<bool>)
    requires hi <= |fs| && IsUnloadedRuns(runs, fs, lo, hi) && k < |runs| && RunsSet(fs, runs, k, now)
    ensures forall i :: runs[k].offset <= i < runs[k].Next() ==> !now[i]
    ensures RunsSet(fs, runs, k + 1, Paint(now, runs[k].offset, runs[k].bytes, true))
  {
    var run, painted := runs[k], Paint(now, runs[k].offset, runs[k].bytes, true);
    forall i | run.offset <= i < run.Next() ensures !now[i] {
      assert InRun(runs, i);
      assert forall j :: 0 <= j < k ==> runs[j].Next() < run.offset;
    }
    forall i | 0 <= i < |fs|
      ensures painted[i] <==> fs[i] || InFirst(runs, k + 1, i)
    {
      InMoreRuns(runs, k, i);
    }
  }

  lemma InMoreRuns(runs: seq<Page>, k: nat, i: int)
    requires k < |runs|
    ensures InFirst(runs, k + 1, i) <==> InFirst(runs, k, i) || runs[k].offset <= i < runs[k].Next()
  {
    if InFirst(runs, k, i) {
      var j :| 0 <= j < k && runs[j].offset <= i < runs[j].Next();
      assert j < k + 1;
    }
  }

  /** Setting runs is loading the window they belong to. */
  lemma RunsLoading(fs: seq<bool>, runs: seq<Page>, start: nat, size: nat, k: nat, now: seq<bool>)
    requires IsUnloadedRuns(runs, fs, start, WindowEnd(|fs|, start, size))
    requires k <= |runs| && RunsSet(fs, runs, k, now)
    ensures Loading(fs, now, start, size, k == |runs|)
  {
    forall i | 0 <= i < |fs| && InFirst(runs, k, i) ensures start <= i < WindowEnd(|fs|, start, size) {
      var j :| 0 <= j < k && j < |runs| && runs[j].offset <= i < runs[j].Next();
    }
    if k == |runs| {
      forall i | start <= i < WindowEnd(|fs|, start, size) ensures now[i] {
        assert InRun(runs, i) ==> InFirst(runs, k, i);
      }
    }
  }

  /** All runs end by the original size exactly when every unloaded byte of the window lies below it. */
  lemma RunsBelow(fs: seq<bool>, runs: seq<Page>, lo: nat, hi: nat, orgSize: nat)
    requires hi <= |fs| && IsUnloadedRuns(runs, fs, lo, hi)
    ensures EndFirst(runs, |runs|, orgSize)
       <==> (forall i :: lo <= i < hi && !fs[i] ==> i < orgSize)
  {
    if forall i :: lo <= i < hi && !fs[i] ==> i < orgSize {
      forall j | 0 <= j < |runs| ensures runs[j].Next() <= orgSize {
        assert InRun(runs, runs[j].Next() - 1);
      }
    }
    if EndFirst(runs, |runs|, orgSize) {
      forall i | lo <= i < hi && !fs[i] ensures i < orgSize {
        assert InRun(runs, i);
      }
    }
  }

  lemma EndFirstNext(runs: seq<Page>, k: nat, size: nat)
    requires k < |runs|
    ensures EndFirst(runs, k + 1, size) <==> EndFirst(runs, k, size) && runs[k].Next() <= size
  {
  }

  /** The bytes of the next run are still as they were. */
  lemma NextRunSame(fs: seq<bool>, data: seq<byte>, now: seq<byte>, runs: seq<Page>, lo: nat, hi: nat, k: nat)
    requires hi <= |fs| == |data| && IsUnloadedRuns(runs, fs, lo, hi) && k < |runs|
    requires SameOutsideRuns(data, now, runs, k)
    ensures forall i :: runs[k].offset <= i < runs[k].Next() ==> now[i] == data[i] && !fs[i]
  {
    forall i | runs[k].offset <= i < runs[k].Next() ensures !InFirst(runs, k, i) && InRun(runs, i) {
      assert forall j :: 0 <= j < k ==> runs[j].Next() < runs[k].offset;
    }
  }

  lemma MoreRunsDiffer(data: seq<byte>, now: seq<byte>, next: seq<byte>, runs: seq<Page>, k: nat)
    requires k < |runs| && SameOutsideRuns(data, now, runs, k)
    requires |next| == |now| && SameOutside(now, next, runs[k].offset, runs[k].bytes)
    ensures SameOutsideRuns(data, next, runs, k + 1)
  {
    forall i | 0 <= i < |next| && !InFirst(runs, k + 1, i) ensures next[i] == data[i] { InMoreRuns(runs, k, i); }
  }

  lemma FirstMeetNext(data: seq<byte>, runs: seq<Page>, k: nat, right: Verdict)
    requires k < |runs|
    ensures FirstMeet(data, runs, k + 1, right)
       <==> FirstMeet(data, runs, k, right) && right(data, runs[k])
  {
  }

  /** The condition of a load, spelled out: every part of the download of every run is well answered. */
  lemma RightMeans(fs: seq<bool>, data: seq<byte>, start: nat, size: nat, runs: seq<Page>, orgSize: nat, p: Promise,
                   net: Network, w: Way, remote: seq<byte>)
    requires Keeps(p, net, w, remote, orgSize) && IsUnloadedRuns(runs, fs, start, WindowEnd(|fs|, start, size))
    ensures LoadRight(fs, data, start, size, p.right)
       <==> forall j :: 0 <= j < |runs| ==> RunRight(data, runs[j], orgSize, w, remote)
  {
    LoadRightMeans(fs, data, start, size, p.right, runs);
    forall j | 0 <= j < |runs| ensures p.right(data, runs[j]) <==> RunRight(data, runs[j], orgSize, w, remote) {
    }
  }

  lemma LoadDoneMeans(fs: seq<bool>, data: seq<byte>, start: nat, size: nat, done: Verdict, runs: seq<Page>)
    requires IsUnloadedRuns(runs, fs, start, WindowEnd(|fs|, start, size))
    ensures LoadDone(fs, data, start, size, done) <==> FirstMeet(data, runs, |runs|, done)
  {
    forall other | IsUnloadedRuns(other, fs, start, WindowEnd(|fs|, start, size)) ensures other == runs {
      UnloadedRunsUnique(other, runs, fs, start, WindowEnd(|fs|, start, size));
    }
  }

  lemma OnlyRunsDiffer(fs: seq<bool>, data: seq<byte>, now: seq<bool>, data': seq<byte>, remote: seq<byte>,
                       orgSize: nat,
                       runs: seq<Page>, k: nat)
    requires |fs| == |data| && k <= |runs| && RunsSet(fs, runs, k, now) && SameOutsideRuns(data, data', runs, |runs|)
    requires forall i :: 0 <= i < |fs| && InFirst(runs, |runs|, i) ==> !fs[i]
    ensures KeptUnlessLoaded(fs, now, View(fs, data, remote, orgSize), View(now, data', remote, orgSize))
  {
  }

  lemma FewRunsDiffer(data: seq<byte>, now: seq<byte>, runs: seq<Page>, k: nat)
    requires k <= |runs| && SameOutsideRuns(data, now, runs, k)
    ensures SameOutsideRuns(data, now, runs, |runs|)
  {
    forall i | InFirst(runs, k, i) ensures InFirst(runs, |runs|, i) {
      var j :| 0 <= j < k && runs[j].offset <= i < runs[j].Next();
    }
  }

  /** The first k runs are loaded: what stands in the local file, and whether it is right. */
  ghost predicate Behind(fs: seq<bool>, data: seq<byte>, runs: seq<Page>, k: nat, now: seq<bool>, data': seq<byte>,
                         remote: seq<byte>, orgSize: nat, right: Verdict, complete: bool)
  {
    && |fs| == |data| && k <= |runs| && RunsSet(fs, runs, k, now) && SameOutsideRuns(data, data', runs, k)
    && var same := View(now, data', remote, orgSize) == View(fs, data, remote, orgSize);
       (same <==> FirstMeet(data, runs, k, right)) && (complete ==> same)
  }

  /** The same when the run after the k-th failed on its way. */
  ghost predicate Ended(fs: seq<bool>, data: seq<byte>, runs: seq<Page>, k: nat, now: seq<bool>, data': seq<byte>,
                        remote: seq<byte>, orgSize: nat, right: Verdict, complete: bool)
  {
    && |fs| == |data| && k <= |runs| && RunsSet(fs, runs, k, now) && SameOutsideRuns(data, data', runs, |runs|)
    && var same := View(now, data', remote, orgSize) == View(fs, data, remote, orgSize);
       (same <==> FirstMeet(data, runs, k, right)) && (complete ==> same)
  }

  lemma BehindEnds(fs: seq<bool>, data: seq<byte>, runs: seq<Page>, k: nat, flags: seq<bool>, now: seq<byte>,
                   next: seq<byte>,
                   remote: seq<byte>, orgSize: nat, right: Verdict, complete: bool)
    requires Behind(fs, data, runs, k, flags, now, remote, orgSize, right, complete)
    requires |next| == |now| && View(flags, next, remote, orgSize) == View(flags, now, remote, orgSize)
    requires if k < |runs| then SameOutside(now, next, runs[k].offset, runs[k].bytes) else next == now
    ensures Ended(fs, data, runs, k, flags, next, remote, orgSize, right, complete)
  {
    if k < |runs| {
      MoreRunsDiffer(data, now, next, runs, k);
      FewRunsDiffer(data, next, runs, k + 1);
    } else {
      FewRunsDiffer(data, next, runs, k);
    }
  }

  lemma NoRunsBehind(fs: seq<bool>, data: seq<byte>, runs: seq<Page>, remote: seq<byte>, orgSize: nat,
                     right: Verdict, complete: bool)
    requires |fs| == |data|
    ensures Behind(fs, data, runs, 0, fs, data, remote, orgSize, right, complete)
  {
  }

  /** Before the next run: it is unloaded, and its local bytes are still the first ones. */
  lemma NextReady(fs: seq<bool>, data: seq<byte>, runs: seq<Page>, lo: nat, hi: nat, k: nat, flags: seq<bool>,
                  now: seq<byte>,
                  remote: seq<byte>, orgSize: nat, right: Verdict, complete: bool)
    requires hi <= |fs| && IsUnloadedRuns(runs, fs, lo, hi) && k < |runs|
    requires Behind(fs, data, runs, k, flags, now, remote, orgSize, right, complete)
    ensures 0 < runs[k].bytes && runs[k].Next() <= hi && AllUnloaded(flags, runs[k])
    ensures SameOn(data, now, runs[k])
  {
    NextRunSet(fs, runs, lo, hi, k, flags);
    NextRunSame(fs, data, now, runs, lo, hi, k);
  }

  /** After it. */
  lemma NextDone(fs: seq<bool>, data: seq<byte>, runs: seq<Page>, lo: nat, hi: nat, k: nat, flags: seq<bool>,
                 now: seq<byte>,
                 next: seq<byte>, remote: seq<byte>, orgSize: nat, right: Verdict, complete: bool, success: bool)
    requires hi <= |fs| && IsUnloadedRuns(runs, fs, lo, hi) && k < |runs|
    requires Behind(fs, data, runs, k, flags, now, remote, orgSize, right, complete)
    requires |next| == |now| && SameOutside(now, next, runs[k].offset, runs[k].bytes)
    requires var flags' := if success then Paint(flags, runs[k].offset, runs[k].bytes, true) else flags;
      |flags'| == |flags| && RunContent(View(flags, now, remote, orgSize), View(flags', next, remote, orgSize), runs[k],
                                        success ==> right(data, runs[k]), complete)
    ensures if success
            then Behind(fs, data, runs, k + 1, Paint(flags, runs[k].offset, runs[k].bytes, true), next, remote, orgSize,
                        right, complete)
            else Ended(fs, data, runs, k, flags, next, remote, orgSize, right, complete)
  {
    NextReady(fs, data, runs, lo, hi, k, flags, now, remote, orgSize, right, complete);
    if success {
      NextRunSet(fs, runs, lo, hi, k, flags);
      MoreRunsDiffer(data, now, next, runs, k);
      NextContent(fs, data, runs, lo, hi, k, flags, now, next, remote, orgSize, right, complete);
    } else {
      BehindEnds(fs, data, runs, k, flags, now, next, remote, orgSize, right, complete);
    }
  }

  ghost predicate AllUnloaded(flags: seq<bool>, run: Page) {
    run.Next() <= |flags| && forall i :: run.offset <= i < run.Next() ==> !flags[i]
  }

  /** What loading a run does to the content. */
  ghost predicate RunContent(c: seq<byte>, c': seq<byte>, run: Page, right: bool, complete: bool) {
    SameOutside(c, c', run.offset, run.bytes) && (c' == c <==> right) && (complete ==> c' == c)
  }

  lemma NextContent(fs: seq<bool>, data: seq<byte>, runs: seq<Page>, lo: nat, hi: nat, k: nat, flags: seq<bool>,
                    now: seq<byte>,
                    next: seq<byte>, remote: seq<byte>, orgSize: nat, right: Verdict, complete: bool)
    requires hi <= |fs| && IsUnloadedRuns(runs, fs, lo, hi) && k < |runs|
    requires Behind(fs, data, runs, k, flags, now, remote, orgSize, right, complete) && |next| == |now|
    requires AllUnloaded(flags, runs[k])
    requires RunContent(View(flags, now, remote, orgSize),
                        View(Paint(flags, runs[k].offset, runs[k].bytes, true), next, remote, orgSize),
                        runs[k], right(data, runs[k]), complete)
    ensures var c' := View(Paint(flags, runs[k].offset, runs[k].bytes, true), next, remote, orgSize);
      var same := c' == View(fs, data, remote, orgSize);
      (same <==> FirstMeet(data, runs, k + 1, right)) && (complete ==> same)
  {
    var flags' := Paint(flags, runs[k].offset, runs[k].bytes, true);
    NextRunSame(fs, data, now, runs, lo, hi, k);
    ContentStep(View(fs, data, remote, orgSize), View(flags, now, remote, orgSize),
                View(flags', next, remote, orgSize), runs[k]);
    FirstMeetNext(data, runs, k, right);
  }

  /** The runs of a window are determined by its flags. */
  lemma LoadRightMeans(fs: seq<bool>, data: seq<byte>, start: nat, size: nat, right: Verdict,
                       runs: seq<Page>)
    requires IsUnloadedRuns(runs, fs, start, WindowEnd(|fs|, start, size))
    ensures LoadRight(fs, data, start, size, right) <==> FirstMeet(data, runs, |runs|, right)
  {
    forall other | IsUnloadedRuns(other, fs, start, WindowEnd(|fs|, start, size)) ensures other == runs {
      UnloadedRunsUnique(other, runs, fs, start, WindowEnd(|fs|, start, size));
    }
  }

  ghost predicate SameFrom(before: seq<bool>, after: seq<bool>, start: nat) {
    |after| == |before| && forall i :: start <= i < |after| ==> after[i] == before[i]
  }

  ghost predicate StaysLoaded(before: seq<bool>, after: seq<bool>) {
    |after| == |before| && forall i :: 0 <= i < |after| && before[i] ==> after[i]
  }

  ghost predicate TailLoaded(fs: seq<bool>, end: nat) { forall i :: end <= i < |fs| ==> fs[i] }

  /** Storing changes nothing behind what is stored. */
  lemma StoredTail(fs: seq<bool>, start: nat, n: nat, end: nat, orgSize: nat)
    requires start <= |fs| && start + n <= end
    ensures NoneMissingPast(fs, end, 0, orgSize) <==> NoneMissingPast(Paint(fs, start, n, true), end, 0, orgSize)
  {
    SameTail(fs, Paint(fs, start, n, true), end, orgSize);
  }

  /** Loaded in front, stored, loaded behind: everything is loaded. */
  lemma NothingMissing(fs: seq<bool>, after: seq<bool>, start: nat, n: nat)
    requires start <= |fs| && Within(fs, 0, start)
    requires StaysLoaded(Paint(fs, start, n, true), after) && TailLoaded(after, start + n)
    ensures after == Repeat(|after|, true)
  {
    var written := Paint(fs, start, n, true);
    assert forall i :: 0 <= i < |after| && i < start + n ==> written[i];
  }

  /** What loading everything from end on does to flags, content and modify flag. */
  ghost predicate TailLoading(fs: seq<bool>, c: seq<byte>, dirty: bool, fs': seq<bool>, c': seq<byte>, dirty': bool,
                              end: nat,
                              orgSize: nat, complete: bool, success: bool)
  {
    && KeptUnlessLoaded(fs, fs', c, c') && StaysLoaded(fs, fs') && (complete ==> c' == c)
    && (success ==> TailLoaded(fs', end) && (dirty' <==> dirty && NoneMissingPast(fs, end, 0, orgSize)))
  }

  /** The effect of the second half of a write. */
  lemma StoredThenLoaded(fs: seq<bool>, c: seq<byte>, start: nat, bytes: seq<byte>, n: nat, fs': seq<bool>,
                         c': seq<byte>,
                         dirty': bool, orgSize: nat, complete: bool, success: bool)
    requires n <= |bytes| && start <= |fs| == |c| && Within(fs, 0, start)
    requires TailLoading(Paint(fs, start, n, true), Overwrite(c, start, bytes[..n]), true, fs', c', dirty',
                         start + |bytes|, orgSize, complete, success)
    ensures Holds(c, c', start, bytes[..n], complete)
    ensures success && n == |bytes| ==>
      fs' == Repeat(|fs'|, true) && (dirty' <==> NoneMissingPast(fs, start + |bytes|, 0, orgSize))
  {
    StillHolds(c, Overwrite(c, start, bytes[..n]), c', start, bytes[..n], Paint(fs, start, n, true), fs', complete);
    StoredTail(fs, start, n, start + |bytes|, orgSize);
    if success && n == |bytes| { NothingMissing(fs, fs', start, n); }
  }

  function Grown(c: seq<byte>, n: nat, remote: seq<byte>, orgSize: nat): seq<byte> {
    if |c| < n then Resized(c, n, remote, orgSize) else c
  }

  /** The three checks of free disk space that one reservation may make. */
  datatype Disk = Disk(first: bool, second: bool, third: bool)

  /** Only bytes that were loaded in between may differ. */
  ghost predicate KeptUnlessLoaded(flags: seq<bool>, flags': seq<bool>, c: seq<byte>, c': seq<byte>) {
    && |flags'| == |c'| == |flags| == |c|
    && forall i :: 0 <= i < |c| && (flags[i] || !flags'[i]) ==> c'[i] == c[i]
  }

  /** Only bytes of the first k runs differ. */
  ghost predicate SameOutsideRuns(before: seq<byte>, after: seq<byte>, runs: seq<Page>, k: nat) {
    |after| == |before| && forall i :: 0 <= i < |after| && !InFirst(runs, k, i) ==> after[i] == before[i]
  }

  /** Loading a window leaves the right bytes, given the flags and the local file before. */
  ghost predicate LoadRight(flags: seq<bool>, data: seq<byte>, start: nat, size: nat, right: Verdict) {
    forall runs :: IsUnloadedRuns(runs, flags, start, WindowEnd(|flags|, start, size)) ==>
      FirstMeet(data, runs, |runs|, right)
  }

  ghost predicate LoadDone(flags: seq<bool>, data: seq<byte>, start: nat, size: nat, done: Verdict) {
    forall runs :: IsUnloadedRuns(runs, flags, start, WindowEnd(|flags|, start, size)) ==>
      FirstMeet(data, runs, |runs|, done)
  }

  /** The original size after a further open: it never grows. */
  function ReopenedSize(orgSize: nat, meta: Option<nat>, size: int): nat
    requires -1 <= size
  {
    var newSize := if meta.Some? then meta.value else if 0 <= size then size else orgSize;
    Min(newSize, orgSize)
  }

  /** c with bytes stored at start, exactly so if the network is complete. */
  ghost predicate Holds(c: seq<byte>, c': seq<byte>, start: nat, bytes: seq<byte>, complete: bool) {
    && |c'| == |Overwrite(c, start, bytes)| && Slice(c', start, |bytes|) == bytes
    && (complete ==> c' == Overwrite(c, start, bytes))
  }

  lemma StillHolds(c: seq<byte>, stored: seq<byte>, c': seq<byte>, start: nat, bytes: seq<byte>, flags: seq<bool>,
                   flags': seq<bool>, complete: bool)
    requires stored == Overwrite(c, start, bytes) && start <= |c|
    requires KeptUnlessLoaded(flags, flags', stored, c') && (complete ==> c' == stored)
    requires forall i :: start <= i < start + |bytes| && i < |flags| ==> flags[i]
    ensures Holds(c, c', start, bytes, complete)
  {
    assert forall i :: start <= i < start + |bytes| ==> c'[i] == stored[i] == bytes[i - start];
  }

  /** The size a read that misses loads: most bytes if the file has them. */
  function Prefetched(fileSize: nat, start: nat, size: nat, most: nat): (n: nat)
    ensures size <= n
    ensures start + size < fileSize ==> start + n <= fileSize
  {
    if start + size < fileSize then
      if start + Max(size, most) < fileSize then Max(size, most) else fileSize - start
    else size
  }

  /** What a load does, successful or not: the flags, the content, and the modify flag. */
  ghost predicate LoadEffect(fs: seq<bool>, data: seq<byte>, dirty: bool, fs': seq<bool>, data': seq<byte>,
                             dirty': bool,
                             remote: seq<byte>, orgSize: nat, start: nat, size: nat, p: Promise, success: bool)
  {
    && |fs| == |data| == |fs'| == |data'| && Loading(fs, fs', start, size, success)
    && var c, c' := View(fs, data, remote, orgSize), View(fs', data', remote, orgSize);
       && KeptUnlessLoaded(fs, fs', c, c') && (p.complete ==> c' == c)
       && (success ==> (c' == c <==> LoadRight(fs, data, start, size, p.right)))
       && (success ==> (dirty' <==> dirty && NoneMissingPast(fs, start, size, orgSize)))
       && (NoneMissingPast(fs, start, size, orgSize) ==> dirty' == dirty) && (dirty' ==> dirty)
  }

  lemma RunsEffect(fs: seq<bool>, data: seq<byte>, dirty: bool, fs': seq<bool>, data': seq<byte>, dirty': bool,
                   remote: seq<byte>, orgSize: nat, start: nat, size: nat, p: Promise, runs: seq<Page>, done: nat)
    requires IsUnloadedRuns(runs, fs, start, WindowEnd(|fs|, start, size))
    requires Ended(fs, data, runs, done, fs', data', remote, orgSize, p.right, p.complete)
    requires dirty' <==> dirty && EndFirst(runs, done, orgSize)
    ensures LoadEffect(fs, data, dirty, fs', data', dirty', remote, orgSize, start, size, p, done == |runs|)
  {
    RunsLoading(fs, runs, start, size, done, fs');
    RunsBelow(fs, runs, start, WindowEnd(|fs|, start, size), orgSize);
    OnlyRunsDiffer(fs, data, fs', data', remote, orgSize, runs, done);
    if done == |runs| { LoadRightMeans(fs, data, start, size, p.right, runs); }
  }

  /** Exactly what a load leaves, successful or not: the unloaded runs in front of the first one that fails
      are loaded, and they decide about the content and the modify flag. */
  ghost predicate LoadStops(fs: seq<bool>, data: seq<byte>, dirty: bool, fs': seq<bool>, data': seq<byte>,
                            dirty': bool, remote: seq<byte>, orgSize: nat, start: nat, size: nat, p: Promise)
    requires |fs| == |data| && |fs'| == |data'|
  {
    forall runs, k ::
      IsUnloadedRuns(runs, fs, start, WindowEnd(|fs|, start, size)) && StopsAt(data, runs, p.done, k) ==>
      && RunsSet(fs, runs, k, fs') && (dirty' <==> dirty && EndFirst(runs, k, orgSize))
      && (View(fs', data', remote, orgSize) == View(fs, data, remote, orgSize) <==> FirstMeet(data, runs, k, p.right))
  }

  lemma RunsStop(fs: seq<bool>, data: seq<byte>, dirty: bool, fs': seq<bool>, data': seq<byte>, dirty': bool,
                 remote: seq<byte>, orgSize: nat, start: nat, size: nat, p: Promise, runs: seq<Page>, done: nat)
    requires IsUnloadedRuns(runs, fs, start, WindowEnd(|fs|, start, size)) && StopsAt(data, runs, p.done, done)
    requires Ended(fs, data, runs, done, fs', data', remote, orgSize, p.right, p.complete)
    requires dirty' <==> dirty && EndFirst(runs, done, orgSize)
    ensures |fs'| == |data'| && LoadStops(fs, data, dirty, fs', data', dirty', remote, orgSize, start, size, p)
    ensures done == |runs| <==> LoadDone(fs, data, start, size, p.done)
  {
    LoadDoneMeans(fs, data, start, size, p.done, runs);
    StopsOnce(data, runs, p.done, done, done);
    forall other, k | IsUnloadedRuns(other, fs, start, WindowEnd(|fs|, start, size)) && StopsAt(data, other, p.done, k)
      ensures other == runs && k == done
    {
      UnloadedRunsUnique(other, runs, fs, start, WindowEnd(|fs|, start, size));
      StopsOnce(data, runs, p.done, done, k);
    }
  }

  /** What a read with ample disk space does to a file of which a byte of [start, start+size) may be
      missing; n is how much it loads then. */
  ghost predicate ReadEffect(fs: seq<bool>, data: seq<byte>, dirty: bool, fs': seq<bool>, data': seq<byte>,
                             dirty': bool,
                             remote: seq<byte>, orgSize: nat, start: nat, size: nat, n: nat, p: Promise, success: bool)
  {
    && |fs| == |data| == |fs'| == |data'| && StaysLoaded(fs, fs')
    && var c, c' := View(fs, data, remote, orgSize), View(fs', data', remote, orgSize);
       && KeptUnlessLoaded(fs, fs', c, c') && (p.complete ==> c' == c)
       && (NoneMissingPast(fs, 0, 0, orgSize) ==> dirty' == dirty)
       && (success && !Within(fs, start, size) ==>
             && (c' == c <==> LoadRight(fs, data, start, n, p.right)) && Loading(fs, fs', start, n, true)
             && (dirty' <==> dirty && NoneMissingPast(fs, start, n, orgSize)))
  }

  lemma LoadIsRead(fs: seq<bool>, data: seq<byte>, dirty: bool, fs': seq<bool>, data': seq<byte>, dirty': bool,
                   remote: seq<byte>, orgSize: nat, start: nat, size: nat, n: nat, p: Promise, success: bool)
    requires LoadEffect(fs, data, dirty, fs', data', dirty', remote, orgSize, start, n, p, success)
    ensures ReadEffect(fs, data, dirty, fs', data', dirty', remote, orgSize, start, size, n, p, success)
  {
    WholeTail(fs, start, n, orgSize);
  }

  lemma WholeTail(fs: seq<bool>, start: nat, size: nat, orgSize: nat)
    ensures NoneMissingPast(fs, 0, 0, orgSize) ==> NoneMissingPast(fs, start, size, orgSize)
  {
  }

  // ---------------------------------------------------------------------
  // The entity
  // ---------------------------------------------------------------------

  datatype WriteResult = Done(result: int, written: nat) | MultipartSwitch

  class FdEntity {
    const path: string
    const file: LocalFile
    const pagelist: PageList
    const multipartSize: nat
    const maxParallel: nat
    const noMultipart: bool
    const retries: nat
    var isOpen: bool         // fd != -1
    var sizeOrgmeta: nat     // original file size in the headers at opening
    var isModify: bool
    var remote: seq<byte>    // the object on the server

    ghost predicate Valid()
      reads this, file, pagelist
    {
      && pagelist.Valid() && Alternating(pagelist.pages)
      && (!isOpen ==> forall i :: 0 <= i < |pagelist.Loaded()| ==> !pagelist.Loaded()[i])
      && (isOpen ==> |file.data| == |pagelist.Loaded()|)
      && sizeOrgmeta <= |remote|
      && 0 < multipartSize && 0 < maxParallel
    }

    /** The flat file this entity stands for. */
    ghost function Content(): (c: seq<byte>)
      requires Valid() && isOpen
      reads this, file, pagelist
      ensures |c| == |file.data|
    {
      View(pagelist.Loaded(), file.data, remote, sizeOrgmeta)
    }

    /** The original size does not reach past the end of the file. */
    ghost predicate Anchored()
      reads this, pagelist
    {
      sizeOrgmeta <= |pagelist.Loaded()|
    }

    /** While modified, only zeros past the original size are not loaded. */
    ghost predicate FlushReady()
      requires Valid() && isOpen
      reads this, file, pagelist
    {
      isModify ==> OnlyZerosMissing(pagelist.Loaded(), file.data, sizeOrgmeta)
    }

    constructor (path: string, multipartSize: nat, maxParallel: nat, noMultipart: bool, retries: nat, remote: seq<byte>)
      requires 0 < multipartSize && 0 < maxParallel
      ensures Valid() && !isOpen && !isModify && this.remote == remote && this.path == path && this.retries == retries
      ensures this.multipartSize == multipartSize && this.maxParallel == maxParallel && this.noMultipart == noMultipart
      ensures fresh(file) && fresh(pagelist)
    {
      this.path := path;
      file := new LocalFile();
      pagelist := new PageList(0, false);
      this.multipartSize, this.maxParallel := multipartSize, maxParallel;
      this.noMultipart, this.retries := noMultipart, retries;
      isOpen, sizeOrgmeta, isModify := false, 0, false;
      this.remote := remote;
    }

    /** Open the local file, or open it again.  meta is the Content-Length of the headers passed in,
        a size of -1 means "not given". */
    method Open(meta: Option<nat>, size: int, truncateWorks: bool) returns (result: int)
      requires Valid() && -1 <= size
      requires meta.Some? && !isOpen ==> meta.value <= |remote|
      modifies this, pagelist, file
      ensures Valid() && remote == old(remote)
      ensures result == 0 ==> isOpen
      // a first open
      ensures !old(isOpen) ==> (result == 0 <==> truncateWorks || size == -1)
      ensures !old(isOpen) ==> (result == 0 <==> isOpen)
      ensures !old(isOpen) && result == 0 ==>
        && !isModify && sizeOrgmeta == (if meta.Some? then meta.value else 0)
        && Content() == Blank(if size == -1 then 0 else size, remote, sizeOrgmeta)
        && pagelist.Loaded() == Repeat(if size == -1 then 0 else size, false)
        && file.data == Zeros(if size == -1 then 0 else size)
      // a further open
      ensures old(isOpen) ==> (result == 0 <==> truncateWorks || size == -1 || size == |old(file.data)|)
      ensures old(isOpen) && result != 0 ==>
        unchanged(pagelist) && unchanged(file) && sizeOrgmeta == old(sizeOrgmeta)
      ensures old(isOpen) ==> isOpen && isModify == old(isModify)
      ensures old(isOpen) && result == 0 ==>
        && sizeOrgmeta == ReopenedSize(old(sizeOrgmeta), meta, size)
        && pagelist.Loaded() == (if size == -1 then old(pagelist.Loaded())
                                 else ResizedFlags(old(pagelist.Loaded()), size, false))
        && file.data == (if size == -1 then old(file.data) else Truncated(old(file.data), size))
        && (meta.None? || old(sizeOrgmeta) <= meta.value ==>
              Content() == if size == -1 then old(Content()) else Resized(old(Content()), size, remote, sizeOrgmeta))
        && (meta.None? && old(Anchored()) ==> Anchored())
        && (meta.None? && old(Anchored()) && old(FlushReady()) ==> FlushReady())
    {
      if isOpen {
        result := Reopen(meta, size, truncateWorks);
      } else {
        result := FirstOpen(meta, size, truncateWorks);
      }
    }

    method FirstOpen(meta: Option<nat>, size: int, truncateWorks: bool) returns (result: int)
      requires Valid() && -1 <= size && !isOpen
      requires meta.Some? ==> meta.value <= |remote|
      modifies this, pagelist, file
      ensures Valid() && remote == old(remote)
      ensures result == 0 <==> truncateWorks || size == -1
      ensures result == 0 <==> isOpen
      ensures result == 0 ==>
        && !isModify && sizeOrgmeta == (if meta.Some? then meta.value else 0)
        && Content() == Blank(if size == -1 then 0 else size, remote, sizeOrgmeta)
        && pagelist.Loaded() == Repeat(if size == -1 then 0 else size, false)
        && file.data == Zeros(if size == -1 then 0 else size)
    {
      if size != -1 { NothingLoadedResized(pagelist.Loaded(), size); }
      file.Ftruncate(0);
      if size == -1 {
        pagelist.Init(0, false);
      } else {
        pagelist.Resize(size, false);
        if !truncateWorks {
          return -EIO;
        }
        file.Ftruncate(size);
      }
      isOpen, isModify := true, false;
      sizeOrgmeta := if meta.Some? then meta.value else 0;
      NothingLoadedView(file.data, remote, sizeOrgmeta);
      return 0;
    }

    method Reopen(meta: Option<nat>, size: int, truncateWorks: bool) returns (result: int)
      requires Valid() && -1 <= size && isOpen
      modifies `sizeOrgmeta, pagelist, file
      ensures Valid()
      ensures result == 0 <==> truncateWorks || size == -1 || size == |old(file.data)|
      ensures result != 0 ==>
        unchanged(pagelist) && unchanged(file) && sizeOrgmeta == old(sizeOrgmeta)
      ensures result == 0 ==>
        && sizeOrgmeta == ReopenedSize(old(sizeOrgmeta), meta, size)
        && pagelist.Loaded() == (if size == -1 then old(pagelist.Loaded())
                                 else ResizedFlags(old(pagelist.Loaded()), size, false))
        && file.data == (if size == -1 then old(file.data) else Truncated(old(file.data), size))
        && (meta.None? || old(sizeOrgmeta) <= meta.value ==>
              Content() == if size == -1 then old(Content()) else Resized(old(Content()), size, remote, sizeOrgmeta))
        && (meta.None? && old(Anchored()) ==> Anchored())
        && (meta.None? && old(Anchored()) && old(FlushReady()) ==> FlushReady())
    {
      ghost var flags, data, n := pagelist.Loaded(), file.data, if size == -1 then |file.data| else size;
      if 0 <= size && pagelist.Size() != size {
        if !truncateWorks {
          return -EIO;
        }
        file.Ftruncate(size);
        pagelist.Resize(size, false);
      }
      var newSize := if meta.Some? then meta.value else if 0 <= size then size else sizeOrgmeta;
      if newSize < sizeOrgmeta {
        sizeOrgmeta := newSize;
      }
      assert pagelist.Loaded() == ResizedFlags(flags, n, false) && file.data == Truncated(data, n);
      if meta.None? || old(sizeOrgmeta) <= meta.value {
        ResizeView(flags, data, n, remote, old(sizeOrgmeta), sizeOrgmeta);
      }
      if old(Anchored()) && OnlyZerosMissing(flags, data, old(sizeOrgmeta)) {
        ResizeKeepsZeros(flags, data, n, old(sizeOrgmeta), sizeOrgmeta);
      }
      return 0;
    }

    /** Try to reserve disk space.  If the first try fails and nothing is modified, the local copy
        is given up: every byte becomes unloaded again. */
    method ReserveDiskSpace(disk: Disk) returns (ok: bool)
      requires Valid() && isOpen
      modifies pagelist, file
      ensures Valid() && |file.data| == |old(file.data)|
      ensures ok == (disk.first || (!isModify && disk.second) || disk.third)
      ensures disk.first || isModify ==> file.data == old(file.data) && pagelist.pages == old(pagelist.pages)
      ensures Content() == if disk.first || isModify then old(Content()) else Blank(|file.data|, remote, sizeOrgmeta)
    {
      if disk.first {
        return true;
      }
      if !isModify {
        var size := pagelist.Size();
        pagelist.Init(size, false);
        file.Ftruncate(0);
        file.Ftruncate(size);
        if disk.second {
          return true;
        }
      }
      return disk.third;
    }

    /** How this entity downloads from a server. */
    function Downloading(net: Network): Way { Way(Config(net.get, retries), multipartSize, noMultipart) }

    /** Fetch one unloaded run: the part below the original size from the server, zeros for the rest. */
    method LoadRun(run: Page, net: Network, ghost p: Promise) returns (result: int)
      requires Valid() && isOpen && Keeps(p, net, Downloading(net), remote, sizeOrgmeta)
      requires 0 < run.bytes && AllUnloaded(pagelist.Loaded(), run)
      modifies `isModify, pagelist, file
      ensures Valid() && SameOutside(old(file.data), file.data, run.offset, run.bytes)
      ensures |file.data| == |old(file.data)|
      ensures pagelist.Loaded() == if result == 0 then Paint(old(pagelist.Loaded()), run.offset, run.bytes, true)
                                   else old(pagelist.Loaded())
      ensures RunContent(old(Content()), Content(), run, result == 0 ==> p.right(old(file.data), run),
                         p.complete)
      ensures result == 0 <==> p.done(old(file.data), run)
      ensures isModify == (old(isModify) && (result == 0 ==> run.Next() <= sizeOrgmeta))
      ensures ZerosKept(old(file.data), file.data, sizeOrgmeta)
    {
      ghost var flags, before := pagelist.Loaded(), file.data;
      result := FillRun(run, net, p);
      if result != 0 {
        UnloadedBytesDoNotMatter(flags, before, file.data, remote, sizeOrgmeta, run);
        return;
      }
      BlankBytesMayBeMarked(flags, before, file.data, remote, sizeOrgmeta, run);
      pagelist.SetPageLoadedStatus(run.offset, run.bytes, true, true);
    }

    /** The local file part of LoadRun: transfer, then zero-fill past the original size. */
    method FillRun(run: Page, net: Network, ghost p: Promise) returns (result: int)
      requires Keeps(p, net, Downloading(net), remote, sizeOrgmeta)
      requires sizeOrgmeta <= |remote| && 0 < multipartSize && 0 < maxParallel
      requires 0 < run.bytes && run.Next() <= |file.data|
      modifies `isModify, file
      ensures |file.data| == |old(file.data)| && SameOutside(old(file.data), file.data, run.offset, run.bytes)
      ensures result == 0 ==>
        (BlankOn(file.data, run, remote, sizeOrgmeta) <==> p.right(old(file.data), run))
      ensures p.complete && result == 0 ==>
        p.right(old(file.data), run)
      ensures result == 0 <==> p.done(old(file.data), run)
      ensures isModify == (old(isModify) && (result == 0 ==> run.Next() <= sizeOrgmeta))
      ensures ZerosKept(old(file.data), file.data, sizeOrgmeta)
    {
      var needLoadSize := 0;
      if run.offset < sizeOrgmeta {
        needLoadSize := if run.Next() <= sizeOrgmeta then run.bytes else sizeOrgmeta - run.offset;
      }
      ghost var before := file.data;
      result := FetchRun(run, needLoadSize, net, p);
      if result != 0 {
        return;
      }
      ghost var fetched := file.data;
      result := FillRest(run, needLoadSize, net);
      FillKeepsZeros(before, fetched, file.data, run.offset + needLoadSize, run.bytes - needLoadSize, sizeOrgmeta);
      if result == 0 { FetchedThenFilled(fetched, file.data, run, needLoadSize, sizeOrgmeta, remote); }
    }

    /** The zeros for what lies past the original size; where there are any, the modify flag goes. */
    method FillRest(run: Page, needLoadSize: nat, net: Network) returns (result: int)
      requires needLoadSize <= run.bytes && run.Next() <= |file.data|
      modifies `isModify, file
      ensures result == 0 <==> RestFilled(run, needLoadSize, net)
      ensures |file.data| == |old(file.data)|
      ensures SameOutside(old(file.data), file.data, run.offset + needLoadSize, run.bytes - needLoadSize)
      ensures ZerosOrOld(old(file.data), file.data, run.offset + needLoadSize, run.bytes - needLoadSize)
      ensures result == 0 && needLoadSize < run.bytes ==>
        Slice(file.data, run.offset + needLoadSize, run.bytes - needLoadSize) == Zeros(run.bytes - needLoadSize)
      ensures isModify == (old(isModify) && (result == 0 ==> needLoadSize == run.bytes))
    {
      var overSize := run.bytes - needLoadSize;
      result := 0;
      if 0 < overSize {
        result := FillFile(file, overSize, run.offset + needLoadSize, net.fill(run.offset + needLoadSize, overSize));
        if result != 0 {
          return;
        }
        isModify := false;
      }
    }

    /** The download of what lies below the original size. */
    method FetchRun(run: Page, needLoadSize: nat, net: Network, ghost p: Promise) returns (result: int)
      requires Keeps(p, net, Downloading(net), remote, sizeOrgmeta)
      requires sizeOrgmeta <= |remote| && 0 < multipartSize && 0 < maxParallel
      requires run.Next() <= |file.data| && needLoadSize == Need(run, sizeOrgmeta)
      modifies file
      ensures |file.data| == |old(file.data)| && SameOutside(old(file.data), file.data, run.offset, needLoadSize)
      ensures result == 0 ==> (Arrived(file.data, run, needLoadSize, remote) <==> p.right(old(file.data), run))
      ensures result == 0 && p.complete ==> p.right(old(file.data), run)
      ensures p.done(old(file.data), run) <==> result == 0 && RestFilled(run, needLoadSize, net)
      ensures ZerosKept(old(file.data), file.data, sizeOrgmeta)
    {
      ghost var before := file.data;
      result := Fetch(file, run.offset, needLoadSize, Downloading(net), maxParallel, remote);
      FetchKeepsZeros(before, file.data, run, needLoadSize, sizeOrgmeta);
      RunFetched(before, file.data, run, needLoadSize, sizeOrgmeta, p, net, Downloading(net), remote, result == 0);
    }

    /** Make sure a window of the local file is loaded.  A size of 0 means "to the end". */
    method Load(start: nat, size: nat, net: Network, ghost p: Promise) returns (result: int)
      requires Valid() && Keeps(p, net, Downloading(net), remote, sizeOrgmeta)
      modifies `isModify, pagelist, file
      ensures Valid() && |file.data| == |old(file.data)|
      ensures !isOpen ==> result == -EBADF && unchanged(this) && unchanged(pagelist) && unchanged(file)
      ensures isOpen ==>
        LoadEffect(old(pagelist.Loaded()), old(file.data), old(isModify), pagelist.Loaded(), file.data, isModify,
                   remote, sizeOrgmeta, start, size, p, result == 0)
      ensures isOpen && old(FlushReady()) ==> FlushReady()
      // success, and where a failure stops
      ensures isOpen ==> (result == 0 <==> LoadDone(old(pagelist.Loaded()), old(file.data), start, size, p.done))
      ensures isOpen ==>
        LoadStops(old(pagelist.Loaded()), old(file.data), old(isModify), pagelist.Loaded(), file.data, isModify, remote,
                  sizeOrgmeta, start, size, p)
      ensures isOpen && p.working ==> result == 0
    {
      if !isOpen {
        return -EBADF;
      }
      ghost var fs, data := pagelist.Loaded(), file.data;
      var unloaded := pagelist.GetUnloadedPages(start, size);
      var done;
      result, done := LoadRuns(unloaded, start, size, net, p);
      RunsEffect(fs, data, old(isModify), pagelist.Loaded(), file.data, isModify, remote, sizeOrgmeta, start, size, p,
                 unloaded, done);
      RunsStop(fs, data, old(isModify), pagelist.Loaded(), file.data, isModify, remote, sizeOrgmeta, start, size, p,
               unloaded, done);
      if p.working {
        WorkingRuns(data, unloaded, sizeOrgmeta, p, net, Downloading(net), remote);
        StopsOnce(data, unloaded, p.done, done, done);
      }
    }

    /** The loop of Load: one run after the other until one fails. */
    method LoadRuns(unloaded: seq<Page>, start: nat, size: nat, net: Network, ghost p: Promise)
      returns (result: int, done: nat)
      requires Valid() && isOpen && Keeps(p, net, Downloading(net), remote, sizeOrgmeta)
      requires IsUnloadedRuns(unloaded, pagelist.Loaded(), start, WindowEnd(|pagelist.Loaded()|, start, size))
      modifies `isModify, pagelist, file
      ensures Valid() && ZerosKept(old(file.data), file.data, sizeOrgmeta)
      ensures StopsAt(old(file.data), unloaded, p.done, done) && (result == 0 <==> done == |unloaded|)
      ensures Ended(old(pagelist.Loaded()), old(file.data), unloaded, done, pagelist.Loaded(), file.data, remote,
                    sizeOrgmeta, p.right, p.complete)
      ensures isModify <==> old(isModify) && EndFirst(unloaded, done, sizeOrgmeta)
    {
      ghost var fs, data := pagelist.Loaded(), file.data;
      ghost var hi := WindowEnd(|fs|, start, size);
      result, done := 0, 0;
      NoRunsBehind(fs, data, unloaded, remote, sizeOrgmeta, p.right, p.complete);
      while done < |unloaded|
        invariant done <= |unloaded| && Valid() && ZerosKept(data, file.data, sizeOrgmeta) && result == 0
        invariant Behind(fs, data, unloaded, done, pagelist.Loaded(), file.data, remote, sizeOrgmeta, p.right,
                         p.complete)
        invariant SoFar(data, old(isModify), isModify, unloaded, done, sizeOrgmeta, p.done)
      {
        result := LoadNext(fs, data, old(isModify), unloaded, start, hi, done, net, p);
        if result != 0 {
          return;
        }
        done := done + 1;
      }
      BehindEnds(fs, data, unloaded, done, pagelist.Loaded(), file.data, file.data, remote, sizeOrgmeta, p.right,
                 p.complete);
    }

    /** One step of LoadRuns. */
    method LoadNext(ghost fs: seq<bool>, ghost data: seq<byte>, ghost dirty: bool, unloaded: seq<Page>, ghost lo: nat,
                    ghost hi: nat, done: nat, net: Network, ghost p: Promise)
      returns (result: int)
      requires Valid() && isOpen && Keeps(p, net, Downloading(net), remote, sizeOrgmeta)
      requires hi <= |fs| && IsUnloadedRuns(unloaded, fs, lo, hi)
      requires done < |unloaded|
      requires Behind(fs, data, unloaded, done, pagelist.Loaded(), file.data, remote, sizeOrgmeta, p.right, p.complete)
      requires SoFar(data, dirty, isModify, unloaded, done, sizeOrgmeta, p.done)
      modifies `isModify, pagelist, file
      ensures Valid() && ZerosKept(old(file.data), file.data, sizeOrgmeta)
      ensures result == 0 ==>
        Behind(fs, data, unloaded, done + 1, pagelist.Loaded(), file.data, remote, sizeOrgmeta, p.right, p.complete)
      ensures result != 0 ==>
        Ended(fs, data, unloaded, done, pagelist.Loaded(), file.data, remote, sizeOrgmeta, p.right, p.complete)
      ensures SoFar(data, dirty, isModify, unloaded, if result == 0 then done + 1 else done, sizeOrgmeta, p.done)
      ensures result != 0 ==> StopsAt(data, unloaded, p.done, done)
    {
      ghost var flags, now := pagelist.Loaded(), file.data;
      NextReady(fs, data, unloaded, lo, hi, done, flags, now, remote, sizeOrgmeta, p.right, p.complete);
      RunStays(data, now, unloaded[done], sizeOrgmeta, p, net, Downloading(net), remote);
      result := LoadRun(unloaded[done], net, p);
      NextDone(fs, data, unloaded, lo, hi, done, flags, now, file.data, remote, sizeOrgmeta, p.right, p.complete,
               result == 0);
      EndFirstNext(unloaded, done, sizeOrgmeta);
      FirstMeetNext(data, unloaded, done, p.done);
    }

    /** Read like from a flat file.  small and large answer for the disk space of the two reservations. */
    method Read(start: nat, size: nat, large: Disk, small: Disk, net: Network, ghost p: Promise)
      returns (result: int, bytes: seq<byte>)
      requires Valid() && Keeps(p, net, Downloading(net), remote, sizeOrgmeta)
      modifies `isModify, pagelist, file
      ensures Valid() && |file.data| == |old(file.data)|
      ensures !isOpen ==> result == -EBADF && bytes == [] && unchanged(this) && unchanged(pagelist) && unchanged(file)
      ensures isOpen && result == 0 ==> bytes == Slice(Content(), start, size)
      ensures isOpen && Within(old(pagelist.Loaded()), start, size) ==>
        && result == 0 && Content() == old(Content()) && isModify == old(isModify)
        && pagelist.Loaded() == old(pagelist.Loaded())
      ensures isOpen && large.first ==>
        ReadEffect(old(pagelist.Loaded()), old(file.data), old(isModify), pagelist.Loaded(), file.data, isModify,
                   remote, sizeOrgmeta, start, size, old(PrefetchSize(start, size)), p, result == 0)
      ensures isOpen && old(isModify) ==>
        KeptUnlessLoaded(old(pagelist.Loaded()), pagelist.Loaded(), old(Content()), Content())
      ensures isOpen && p.complete ==>
        || Content() == old(Content())
        || (!large.first && !old(isModify) && Content() == Blank(|old(Content())|, remote, sizeOrgmeta))
      ensures isOpen && large.first && old(FlushReady()) ==> FlushReady()
      ensures isOpen && large.first ==>
        (result == 0 <==>
           || Within(old(pagelist.Loaded()), start, size)
           || LoadDone(old(pagelist.Loaded()), old(file.data), start, old(PrefetchSize(start, size)), p.done))
      ensures isOpen && p.working && large.first ==> result == 0
    {
      bytes := [];
      if !isOpen {
        return -EBADF, [];
      }
      result := MakeReadable(start, size, large, small, net, p);
      if result != 0 {
        return result, [];
      }
      WithinReads(pagelist.Loaded(), file.data, remote, sizeOrgmeta, start, size);
      bytes := file.Pread(start, size);
    }

    /** The part of Read before the pread: reserve space and load if a byte of the window is missing. */
    method MakeReadable(start: nat, size: nat, large: Disk, small: Disk, net: Network, ghost p: Promise)
      returns (result: int)
      requires Valid() && isOpen && Keeps(p, net, Downloading(net), remote, sizeOrgmeta)
      modifies `isModify, pagelist, file
      ensures Valid() && |file.data| == |old(file.data)|
      ensures result == 0 ==> Within(pagelist.Loaded(), start, size)
      ensures Within(old(pagelist.Loaded()), start, size) ==>
        && result == 0 && Content() == old(Content()) && isModify == old(isModify)
        && pagelist.Loaded() == old(pagelist.Loaded())
      ensures large.first ==>
        ReadEffect(old(pagelist.Loaded()), old(file.data), old(isModify), pagelist.Loaded(), file.data, isModify,
                   remote, sizeOrgmeta, start, size, old(PrefetchSize(start, size)), p, result == 0)
      ensures old(isModify) ==>
        KeptUnlessLoaded(old(pagelist.Loaded()), pagelist.Loaded(), old(Content()), Content())
      ensures p.complete ==>
        || Content() == old(Content())
        || (!large.first && !old(isModify) && Content() == Blank(|old(Content())|, remote, sizeOrgmeta))
      ensures large.first && old(FlushReady()) ==> FlushReady()
      ensures large.first ==>
        (result == 0 <==>
           || Within(old(pagelist.Loaded()), start, size)
           || LoadDone(old(pagelist.Loaded()), old(file.data), start, old(PrefetchSize(start, size)), p.done))
      ensures p.working && large.first ==> result == 0
    {
      ghost var fs, data, dirty := pagelist.Loaded(), file.data, isModify;
      var restSize := pagelist.GetTotalUnloadedPageSize(start, size);
      UnloadedZero(fs, start, Min(start + size, |fs|));
      if restSize <= 0 {
        return 0;
      }
      ghost var n := PrefetchSize(start, size);
      result := LoadAhead(start, size, large, small, net, p);
      if large.first {
        LoadIsRead(fs, data, dirty, pagelist.Loaded(), file.data, isModify, remote, sizeOrgmeta, start, size, n, p,
                   result == 0);
      }
    }

    /** A byte is missing: reserve space for as much as is worth loading, or else for what is asked for. */
    method LoadAhead(start: nat, size: nat, large: Disk, small: Disk, net: Network, ghost p: Promise)
      returns (result: int)
      requires Valid() && isOpen && Keeps(p, net, Downloading(net), remote, sizeOrgmeta)
      modifies `isModify, pagelist, file
      ensures Valid() && |file.data| == |old(file.data)|
      ensures result == 0 ==> Within(pagelist.Loaded(), start, size)
      ensures large.first ==>
        LoadEffect(old(pagelist.Loaded()), old(file.data), old(isModify), pagelist.Loaded(), file.data, isModify,
                   remote, sizeOrgmeta, start, old(PrefetchSize(start, size)), p, result == 0)
      ensures old(isModify) ==>
        KeptUnlessLoaded(old(pagelist.Loaded()), pagelist.Loaded(), old(Content()), Content())
      ensures p.complete ==>
        || Content() == old(Content())
        || (!large.first && !old(isModify) && Content() == Blank(|old(Content())|, remote, sizeOrgmeta))
      ensures large.first && old(FlushReady()) ==> FlushReady()
      ensures large.first ==>
        (result == 0 <==>
           LoadDone(old(pagelist.Loaded()), old(file.data), start, old(PrefetchSize(start, size)), p.done))
      ensures p.working && large.first ==> result == 0
    {
      var ok, loadSize := ReserveAhead(start, size, large, small);
      if !ok {
        return -ENOSPC;
      }
      result := Load(start, loadSize, net, p);
      if result != 0 {
        return -EIO;
      }
    }

    /** The reservations of a read that misses, and how much it is to load. */
    method ReserveAhead(start: nat, size: nat, large: Disk, small: Disk) returns (ok: bool, loadSize: nat)
      requires Valid() && isOpen
      modifies pagelist, file
      ensures Valid() && |file.data| == |old(file.data)| && size <= loadSize
      ensures large.first ==> ok && loadSize == old(PrefetchSize(start, size))
      ensures large.first || isModify ==> file.data == old(file.data) && pagelist.Loaded() == old(pagelist.Loaded())
      ensures
        || Content() == old(Content())
        || (!large.first && !isModify && Content() == Blank(|file.data|, remote, sizeOrgmeta))
    {
      loadSize := PrefetchSize(start, size);
      ok := ReserveDiskSpace(large);
      if !ok {
        loadSize := size;
        ok := ReserveDiskSpace(small);
      }
    }

    /** How much a Read that misses will load: at least what is asked for, and within the file if that is. */
    function PrefetchSize(start: nat, size: nat): (n: nat)
      requires pagelist.Valid()
      reads this, pagelist
      ensures size <= n
      ensures start + size < pagelist.Size() ==> start + n <= pagelist.Size()
    {
      Prefetched(pagelist.Size(), start, size, multipartSize * maxParallel)
    }

    /** Write like to a flat file.  answer is the outcome of the pwrite.  Without disk space the source
        goes over to an uncached multipart upload, where this model stops. */
    method Write(bytes: seq<byte>, start: nat, growWorks: bool, disk: Disk, net: Network, ghost p: Promise, answer: int)
      returns (r: WriteResult)
      requires Valid() && Keeps(p, net, Downloading(net), remote, sizeOrgmeta)
      modifies `isModify, pagelist, file
      ensures Valid() && (isOpen && old(Anchored()) ==> Anchored())
      ensures !isOpen ==> r == Done(-EBADF, 0) && unchanged(this) && unchanged(pagelist) && unchanged(file)
      ensures r.Done? ==> r.written <= |bytes|
      ensures r.MultipartSwitch? ==> !disk.first
      ensures isOpen && !growWorks && |old(Content())| < start ==> r == Done(-EIO, 0) && Content() == old(Content())
      // the content
      ensures isOpen && r.Done? && (growWorks || start <= |old(Content())|) ==>
        var before := if disk.first || old(isModify) then Grown(old(Content()), start, remote, sizeOrgmeta)
                      else Blank(Max(|old(Content())|, start), remote, sizeOrgmeta);
        var after := Overwrite(before, start, bytes[..r.written]);
        && |Content()| == |after| && Slice(Content(), start, r.written) == bytes[..r.written]
        && (p.complete ==> Content() == after)
      // flags
      ensures isOpen && r == Done(0, |bytes|) && (growWorks || start <= |old(Content())|) ==>
        && pagelist.Loaded() == Repeat(|file.data|, true) && FlushReady()
        && (0 < |file.data| ==> pagelist.pages == [Page(0, |file.data|, true)])
        && (disk.first || old(isModify) ==>
              (isModify <==> NoneMissingPast(old(pagelist.Loaded()), start + |bytes|, 0, sizeOrgmeta)))
      ensures isOpen && (growWorks || start <= |old(Content())|) && disk.first && p.working && |bytes| <= answer ==>
        r == Done(0, |bytes|)
    {
      if !isOpen {
        return Done(-EBADF, 0);
      }
      r := WriteOpen(bytes, start, growWorks, disk, net, p, answer);
      if r == Done(0, |bytes|) && (growWorks || start <= |old(Content())|) && 0 < |file.data| {
        OneLoadedPage(pagelist.pages, |file.data|);
      }
    }

    method WriteOpen(bytes: seq<byte>, start: nat, growWorks: bool, disk: Disk, net: Network, ghost p: Promise,
                     answer: int)
      returns (r: WriteResult)
      requires Valid() && isOpen && Keeps(p, net, Downloading(net), remote, sizeOrgmeta)
      modifies `isModify, pagelist, file
      ensures Valid() && |old(file.data)| <= |file.data|
      ensures r.Done? ==> r.written <= |bytes|
      ensures r.MultipartSwitch? ==> !disk.first
      ensures !growWorks && |old(Content())| < start ==> r == Done(-EIO, 0) && Content() == old(Content())
      ensures r.Done? && (growWorks || start <= |old(Content())|) ==>
        var before := if disk.first || old(isModify) then Grown(old(Content()), start, remote, sizeOrgmeta)
                      else Blank(Max(|old(Content())|, start), remote, sizeOrgmeta);
        Holds(before, Content(), start, bytes[..r.written], p.complete)
      ensures r == Done(0, |bytes|) && (growWorks || start <= |old(Content())|) ==>
        && pagelist.Loaded() == Repeat(|file.data|, true)
        && (disk.first || old(isModify) ==>
              (isModify <==> NoneMissingPast(old(pagelist.Loaded()), start + |bytes|, 0, sizeOrgmeta)))
      ensures (growWorks || start <= |old(Content())|) && disk.first && p.working && |bytes| <= answer ==>
        r == Done(0, |bytes|)
    {
      ghost var fs := pagelist.Loaded();
      var grown := Grow(start, growWorks);
      if !grown {
        return Done(-EIO, 0);
      }
      r := WriteInside(bytes, start, disk, net, p, answer);
      SameTail(fs, fs + Repeat(Max(start, |fs|) - |fs|, false), start + |bytes|, sizeOrgmeta);
    }

    /** Write once the file reaches to start. */
    method WriteInside(bytes: seq<byte>, start: nat, disk: Disk, net: Network, ghost p: Promise, answer: int)
      returns (r: WriteResult)
      requires Valid() && isOpen && Keeps(p, net, Downloading(net), remote, sizeOrgmeta) && start <= |file.data|
      modifies `isModify, pagelist, file
      ensures Valid() && |old(file.data)| <= |file.data|
      ensures r.Done? ==> r.written <= |bytes|
      ensures r.MultipartSwitch? ==> !disk.first
      ensures r.Done? ==>
        var before := if disk.first || old(isModify) then old(Content())
                      else Blank(|old(file.data)|, remote, sizeOrgmeta);
        Holds(before, Content(), start, bytes[..r.written], p.complete)
      ensures r == Done(0, |bytes|) ==> pagelist.Loaded() == Repeat(|file.data|, true)
      ensures r == Done(0, |bytes|) && (disk.first || old(isModify)) ==>
        (isModify <==> NoneMissingPast(old(pagelist.Loaded()), start + |bytes|, 0, sizeOrgmeta))
      ensures disk.first && p.working && |bytes| <= answer ==> r == Done(0, |bytes|)
    {
      var restSize := pagelist.GetTotalUnloadedPageSize(0, start);
      var ok := ReserveDiskSpace(disk);
      if !ok {
        return MultipartSwitch;
      }
      r := LoadStoreLoad(bytes, start, net, p, answer);
    }

    /** Load what is in front of the area, write it, load what is behind it. */
    method LoadStoreLoad(bytes: seq<byte>, start: nat, net: Network, ghost p: Promise, answer: int)
      returns (r: WriteResult)
      requires Valid() && isOpen && Keeps(p, net, Downloading(net), remote, sizeOrgmeta) && start <= |file.data|
      modifies `isModify, pagelist, file
      ensures Valid() && |old(file.data)| <= |file.data|
      ensures r.Done? && r.written <= |bytes|
      ensures Holds(old(Content()), Content(), start, bytes[..r.written], p.complete)
      ensures r == Done(0, |bytes|) ==> pagelist.Loaded() == Repeat(|file.data|, true)
      ensures r == Done(0, |bytes|) ==>
        (isModify <==> NoneMissingPast(old(pagelist.Loaded()), start + |bytes|, 0, sizeOrgmeta))
      ensures p.working && |bytes| <= answer ==> r == Done(0, |bytes|)
    {
      ghost var fs, c := pagelist.Loaded(), Content();
      var result := LoadBefore(start, net, p);
      if result != 0 {
        return Done(result, 0);
      }
      SameTail(fs, pagelist.Loaded(), start + |bytes|, sizeOrgmeta);
      r := StoreThenLoad(bytes, start, net, p, answer);
    }

    /** The same once everything in front of the area is loaded. */
    method StoreThenLoad(bytes: seq<byte>, start: nat, net: Network, ghost p: Promise, answer: int)
      returns (r: WriteResult)
      requires Valid() && isOpen && Keeps(p, net, Downloading(net), remote, sizeOrgmeta) && start <= |file.data|
      requires Within(pagelist.Loaded(), 0, start)
      modifies `isModify, pagelist, file
      ensures Valid() && |old(file.data)| <= |file.data|
      ensures r.Done? && r.written <= |bytes|
      ensures Holds(old(Content()), Content(), start, bytes[..r.written], p.complete)
      ensures r == Done(0, |bytes|) ==> pagelist.Loaded() == Repeat(|file.data|, true)
      ensures r == Done(0, |bytes|) ==>
        (isModify <==> NoneMissingPast(old(pagelist.Loaded()), start + |bytes|, 0, sizeOrgmeta))
      ensures p.working && |bytes| <= answer ==> r == Done(0, |bytes|)
    {
      ghost var fs, c := pagelist.Loaded(), Content();
      var n := StoreBytes(bytes, start, answer);
      if n == -1 {
        return Done(-EIO, 0);
      }
      var result := LoadAfter(start + |bytes|, net, p);
      StoredThenLoaded(fs, c, start, bytes, n, pagelist.Loaded(), Content(), isModify, sizeOrgmeta, p.complete,
                       result == 0);
      return Done(result, n);
    }

    /** Write loads everything in front of the written area first ... */
    method LoadBefore(start: nat, net: Network, ghost p: Promise) returns (result: int)
      requires Valid() && isOpen && Keeps(p, net, Downloading(net), remote, sizeOrgmeta) && start <= |file.data|
      modifies `isModify, pagelist, file
      ensures Valid() && |file.data| == |old(file.data)|
      ensures p.complete ==> Content() == old(Content())
      ensures SameFrom(old(pagelist.Loaded()), pagelist.Loaded(), start)
      ensures result == 0 ==> Within(pagelist.Loaded(), 0, start)
      ensures p.working ==> result == 0
    {
      result := 0;
      if 0 < start {
        result := Load(0, start, net, p);
      }
    }

    /** ... and everything behind it afterwards. */
    method LoadAfter(end: nat, net: Network, ghost p: Promise) returns (result: int)
      requires Valid() && isOpen && Keeps(p, net, Downloading(net), remote, sizeOrgmeta)
      modifies `isModify, pagelist, file
      ensures Valid() && |file.data| == |old(file.data)|
      ensures TailLoading(old(pagelist.Loaded()), old(Content()), old(isModify), pagelist.Loaded(), Content(), isModify,
                          end, sizeOrgmeta, p.complete, result == 0)
      ensures p.working ==> result == 0
    {
      result := 0;
      if end < pagelist.Size() {
        result := Load(end, pagelist.Size(), net, p);
      }
    }

    /** The first step of Write: make the file reach at least to start. */
    method Grow(start: nat, growWorks: bool) returns (ok: bool)
      requires Valid() && isOpen
      modifies pagelist, file
      ensures Valid()
      ensures ok <==> growWorks || start <= |old(file.data)|
      ensures !ok ==> unchanged(pagelist) && unchanged(file)
      ensures ok ==> Content() == Grown(old(Content()), start, remote, sizeOrgmeta)
      ensures ok ==>
        pagelist.Loaded() == old(pagelist.Loaded()) + Repeat(Max(start, |old(file.data)|) - |old(file.data)|, false)
    {
      if pagelist.Size() < start {
        if !growWorks {
          return false;
        }
        ResizeView(pagelist.Loaded(), file.data, start, remote, sizeOrgmeta, sizeOrgmeta);
        file.Ftruncate(start);
        pagelist.SetPageLoadedStatus(pagelist.Size(), start - pagelist.Size(), false, true);
      }
      return true;
    }

    /** The pwrite of Write, and marking what it wrote as loaded. */
    method StoreBytes(bytes: seq<byte>, start: nat, answer: int) returns (n: int)
      requires Valid() && isOpen && start <= |file.data|
      modifies `isModify, pagelist, file
      ensures Valid() && -1 <= n <= |bytes|
      ensures n == -1 ==> unchanged(pagelist) && file.data == old(file.data) && isModify == old(isModify)
      ensures 0 <= n ==> isModify
      ensures |bytes| <= answer ==> n == |bytes|
      ensures 0 <= n ==> Content() == Overwrite(old(Content()), start, bytes[..n])
      ensures 0 <= n ==> pagelist.Loaded() == Paint(old(pagelist.Loaded()), start, n, true)
    {
      n := file.Pwrite(bytes, start, answer);
      if n == -1 {
        return;
      }
      isModify := true;
      StoredView(pagelist.Loaded(), old(file.data), remote, sizeOrgmeta, start, bytes[..n]);
      if 0 < n {
        pagelist.SetPageLoadedStatus(start, n, true, true);
      }
    }

    /** Upload the local file.  The count of bytes still to be loaded is taken over an empty window, so
        it is always 0 and nothing is loaded here. */
    method RowFlush(forceSync: bool, up: Uploading) returns (result: int)
      requires Valid() && Proper(up)
      modifies this
      ensures isOpen == old(isOpen)
      ensures !isOpen ==> result == -EBADF
      ensures isOpen && !forceSync && !old(isModify) ==> result == 0
      ensures isOpen && (forceSync || old(isModify)) && MAX_MULTIPART_CNT * multipartSize < |file.data| ==>
        result == -ENOTSUP
      ensures !isOpen || (!forceSync && !old(isModify)) || MAX_MULTIPART_CNT * multipartSize < |file.data| ==>
        unchanged(this) && Valid()
      // an upload: what is sent is the local file, whatever becomes of it
      ensures remote == old(remote) || (isOpen && remote == file.data)
      ensures result != 0 ==> isModify == old(isModify)
      ensures isOpen && (forceSync || old(isModify)) && |file.data| <= MAX_MULTIPART_CNT * multipartSize ==>
        && sizeOrgmeta == |file.data| && (Valid() <==> |file.data| <= |remote|)
        && (SmoothUpload(up, |file.data|, multipartSize, noMultipart, retries) ==> result == 0)
        && (result == 0 ==> !isModify && remote == file.data)
        && (if SentInParts(|file.data|, multipartSize, noMultipart) then result != 0 ==> remote == old(remote)
            else
              var (r, kept) := PutFrom(up.put(|file.data|), |file.data|, 0, retries);
              result == r && remote == if kept then file.data else old(remote))
      ensures result == 0 ==> Valid()
      // it is the flat file exactly if every unloaded local byte is what it stands for
      ensures isOpen && result == 0 && (forceSync || old(isModify)) ==>
        && Content() == remote
        && (remote == old(Content()) <==> BlankLocally(pagelist.Loaded(), file.data, old(remote), old(sizeOrgmeta)))
      ensures isOpen && result == 0 && old(isModify) && old(FlushReady()) ==> remote == old(Content())
    {
      if !isOpen {
        return -EBADF;
      }
      if !forceSync && !isModify {
        return 0;
      }
      var restSize := pagelist.GetTotalUnloadedPageSize(0, 0);
      assert restSize == 0;
      if MAX_MULTIPART_CNT * multipartSize < pagelist.Size() {
        return -ENOTSUP;
      }
      LocalIsView(pagelist.Loaded(), file.data, remote, sizeOrgmeta);
      result, remote := Upload(file, remote, multipartSize, noMultipart, retries, up);
      sizeOrgmeta := |file.data|;
      LocalIsView(pagelist.Loaded(), file.data, remote, sizeOrgmeta);
      if result == 0 {
        isModify := false;
      }
    }
  }
}
