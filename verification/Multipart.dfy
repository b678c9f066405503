/** Uploading a file in numbered parts: the split, the rounds of requests with retries, and the
    request that puts the parts together. */
module Multipart {
  import opened Numbers
  import opened Text
  import opened LocalFiles
  import opened Requests
  import opened Keywords

  // ---------------------------------------------------------------------
  // One part on its way out
  // ---------------------------------------------------------------------

  /** What one try of a part meets: the room curl offers in each read and how the preads end; whether
      the server keeps the part if it has come in full, and what it says of it then. */
  datatype Put = Put(rooms: seq<nat>, io: seq<int>, keeps: bool, etag: string, md5Fits: bool)

  type PutAttempt = Attempt<Put>

  /** The parts that the server holds, by number. */
  type Stored = map<nat, seq<byte>>

  /** The disk gives every byte, curl asks often enough for m of them, and the server keeps the part. */
  predicate Whole(b: Put, m: nat) { b.io == [] && m <= Sum(b.rooms) && b.keeps && b.etag != "" && b.md5Fits }

  /** Within the tries allowed there is a final answer, and it is a success of a part that came in full. */
  ghost predicate SmoothPut(attempts: seq<PutAttempt>, m: nat, retries: nat) {
    exists j: nat :: j < retries && FinalAt(attempts, j) && Success(attempts[j].outcome) && Whole(attempts[j].body, m)
  }

  /** The same, or the final answer is one after which the part is queued again. */
  ghost predicate FairPut(attempts: seq<PutAttempt>, m: nat, retries: nat) {
    exists j: nat :: j < retries && FinalAt(attempts, j) && FairAt(attempts[j], m)
  }

  predicate FairAt(a: PutAttempt, m: nat) { (Success(a.outcome) && Whole(a.body, m)) || Repeated(CodeOf(a.outcome)) }

  lemma OneFinal(attempts: seq<PutAttempt>, j: nat, k: nat)
    requires FinalAt(attempts, j) && k < |attempts| && Final(attempts[k].outcome)
    requires forall i: nat :: i < k && i < |attempts| ==> !Final(attempts[i].outcome)
    ensures j == k
  {
  }

  /** How a request for a part ends: the last response code (-1 if there was none), the ETag in the last
      answer ("" if there was none) and whether it fits the MD5 sum sent. */
  datatype Answer = Answer(code: int, etag: string, md5Fits: bool)

  /** The answer fills the slot of its part. */
  predicate Fills(a: Answer) { a.code < 400 && a.etag != "" && a.md5Fits }

  /** The answer fills the slot or is one that is tried again. */
  predicate FillsOrRepeats(a: Answer) { Fills(a) || Repeated(a.code) }

  /** What a request comes to, from what it meets. */
  ghost predicate AnswerOf(a: Answer, attempts: seq<PutAttempt>, m: nat, retries: nat) {
    && (SmoothPut(attempts, m, retries) ==> Fills(a))
    && (FairPut(attempts, m, retries) ==> FillsOrRepeats(a))
  }

  /** A slice and the bytes behind it are a longer slice. */
  lemma SliceGrows(data: seq<byte>, start: nat, a: seq<byte>, b: seq<byte>)
    requires a == Slice(data, start, |a|) && b == Slice(data, start + |a|, |b|)
    ensures a + b == Slice(data, start, |a| + |b|)
  {
  }

  class PutRequest {
    const file: LocalFile
    const num: nat
    var startpos: nat
    var size: nat
    const bStartpos: nat
    const bSize: nat
    var lastResponseCode: int
    var retryCount: nat
    var etag: string           // of the response headers
    var md5Fits: bool

    ghost predicate Valid()
      reads this
    {
      bStartpos <= startpos && startpos + size == bStartpos + bSize
    }

    ghost predicate Rewound()
      reads this
    {
      startpos == bStartpos && size == bSize && lastResponseCode == -1 && etag == ""
    }

    function Result(): Answer
      reads this
    {
      Answer(lastResponseCode, etag, md5Fits)
    }

    constructor (file: LocalFile, num: nat, start: nat, size: nat, retryCount: nat)
      ensures Valid() && Rewound() && this.file == file && this.num == num && bStartpos == start && bSize == size
      ensures this.retryCount == retryCount
    {
      this.file, this.num := file, num;
      startpos, this.size, bStartpos, bSize := start, size, start, size;
      lastResponseCode, this.retryCount, etag, md5Fits := -1, retryCount, "", false;
    }

    /** Hand out the next bytes, at most room of them; io bounds what each pread returns. */
    method UploadReadCallback(room: nat, io: seq<int>) returns (out: seq<byte>)
      requires Valid()
      modifies `startpos, `size
      ensures Valid() && |out| <= room && startpos == old(startpos) + |out|
      ensures out == Slice(file.data, old(startpos), |out|)
      ensures io == [] && old(startpos + size) <= |file.data| ==> |out| == Min(room, old(size))
    {
      out := [];
      if room < 1 || size <= 0 {
        return;
      }
      var copysize := if room < size then room else size;
      var k := 0;
      while |out| < copysize
        invariant startpos == old(startpos) && size == old(size)
        invariant |out| <= copysize && out == Slice(file.data, startpos, |out|)
        invariant io == [] && startpos + size <= |file.data| ==> k == 0 || |out| == copysize
        decreases copysize - |out|
      {
        var answer := if k < |io| then io[k] else copysize;
        if answer < 0 {
          return [];
        }
        var got := file.Pread(startpos + |out|, if answer < copysize - |out| then answer else copysize - |out|);
        if got == [] {
          break;
        }
        SliceGrows(file.data, startpos, out, got);
        out, k := out + got, k + 1;
      }
      startpos := startpos + |out|;
      size := size - |out|;
    }

    /** One attempt: whatever the pieces, what has been sent is the front of the part's range. */
    method Send(rooms: seq<nat>, io: seq<int>) returns (sent: seq<byte>)
      requires Valid() && startpos == bStartpos
      modifies `startpos, `size
      ensures Valid() && |sent| <= bSize && sent == Slice(file.data, bStartpos, |sent|)
      ensures io == [] && bStartpos + bSize <= |file.data| ==> |sent| == Min(Sum(rooms), bSize)
    {
      sent := [];
      var i := 0;
      while i < |rooms|
        invariant i <= |rooms| && Valid() && startpos == bStartpos + |sent|
        invariant sent == Slice(file.data, bStartpos, |sent|)
        invariant io == [] && bStartpos + bSize <= |file.data| ==> |sent| == Min(Sum(rooms[..i]), bSize)
      {
        assert rooms[..i + 1] == rooms[..i] + [rooms[i]];
        SumLast(rooms[..i], rooms[i]);
        var out := UploadReadCallback(rooms[i], io);
        SliceGrows(file.data, bStartpos, sent, out);
        sent, i := sent + out, i + 1;
      }
      assert rooms[..i] == rooms;
    }

    /** Reset for another try: the part goes back to its start, and the headers of the answer are dropped. */
    method RemakeHandle()
      requires Valid()
      modifies this
      ensures Valid() && Rewound() && retryCount == old(retryCount) + 1
    {
      startpos, size := bStartpos, bSize;
      lastResponseCode, etag := -1, "";
      retryCount := retryCount + 1;
    }

    /** One try: send the part; the server keeps it only if it got as many bytes as were announced, and
        gives an ETag only for a part it keeps. */
    method Perform(b: Put, stored: Stored) returns (now: Stored)
      requires Valid() && Rewound()
      modifies `startpos, `size, `etag, `md5Fits
      ensures Valid()
      ensures now == stored || now == stored[num := Slice(file.data, bStartpos, bSize)]
      ensures etag != "" ==> num in now
      ensures Whole(b, bSize) && bStartpos + bSize <= |file.data| ==> etag != "" && md5Fits
    {
      var sent := Send(b.rooms, b.io);
      now := stored;
      if b.keeps && |sent| == bSize {
        now := now[num := sent];
        etag, md5Fits := b.etag, b.md5Fits;
      }
    }

    /** Try the request until it gets a final answer, at most `retries` times. */
    method RequestPerform(attempts: seq<PutAttempt>, retries: nat, stored: Stored) returns (result: int, now: Stored)
      requires Valid() && Rewound() && bStartpos + bSize <= |file.data|
      modifies this
      ensures Valid() && old(retryCount) <= retryCount
      ensures now == stored || now == stored[num := Slice(file.data, bStartpos, bSize)]
      ensures etag != "" ==> num in now
      ensures result == 0 ==> 200 <= lastResponseCode < 300
      ensures AnswerOf(Result(), attempts, bSize, retries)
    {
      var tries := 0;
      now := stored;
      while tries < retries
        invariant tries <= retries && Valid() && Rewound() && old(retryCount) <= retryCount
        invariant now == stored || now == stored[num := Slice(file.data, bStartpos, bSize)]
        invariant forall i: nat :: i < tries && i < |attempts| ==> !Final(attempts[i].outcome)
      {
        var attempt := if tries < |attempts| then attempts[tries] else Attempt(Put([], [], false, "", false), Fatal);
        now := Perform(attempt.body, now);
        lastResponseCode := CodeOf(attempt.outcome);
        if Final(attempt.outcome) {
          FinalPut(attempts, tries, bSize, retries, Result());
          return ResultOf(attempt.outcome), now;
        }
        RemakeHandle();
        tries := tries + 1;
      }
      NoFinalPut(attempts, bSize, retries);
      return -EIO, now;
    }
  }

  /** The first final answer decides. */
  lemma FinalPut(attempts: seq<PutAttempt>, k: nat, m: nat, retries: nat, a: Answer)
    requires forall i: nat :: i < k && i < |attempts| ==> !Final(attempts[i].outcome)
    requires k < |attempts| ==> Final(attempts[k].outcome) && a.code == CodeOf(attempts[k].outcome)
    requires k < |attempts| && Whole(attempts[k].body, m) ==> a.etag != "" && a.md5Fits
    ensures AnswerOf(a, attempts, m, retries)
  {
    forall j: nat | FinalAt(attempts, j) ensures j == k {
      if k < |attempts| { OneFinal(attempts, j, k); }
    }
  }

  /** What is enough for m bytes is enough for fewer. */
  lemma SmallerPart(a: Answer, attempts: seq<PutAttempt>, n: nat, m: nat, retries: nat)
    requires n <= m && AnswerOf(a, attempts, n, retries)
    ensures AnswerOf(a, attempts, m, retries)
  {
  }

  lemma NoFinalPut(attempts: seq<PutAttempt>, m: nat, retries: nat)
    requires forall i: nat :: i < retries && i < |attempts| ==> !Final(attempts[i].outcome)
    ensures !SmoothPut(attempts, m, retries) && !FairPut(attempts, m, retries)
  {
  }

  // ---------------------------------------------------------------------
  // The split
  // ---------------------------------------------------------------------

  datatype Part = Part(num: nat, slot: nat, start: nat, size: nat, retryCount: nat)

  /** Numbered parts, end to end from 0 up to the position end. */
  ghost predicate EndToEnd(parts: seq<Part>, end: nat) {
    && (forall k :: 0 <= k < |parts| ==>
          parts[k].slot == k && parts[k].num == k + 1 && parts[k].retryCount == 0 && 0 < parts[k].size)
    && (forall k :: 0 < k < |parts| ==> parts[k].start == parts[k - 1].start + parts[k - 1].size)
    && (if parts == [] then end == 0
        else parts[0].start == 0 && parts[|parts| - 1].start + parts[|parts| - 1].size == end)
  }

  /** The parts of a file of n bytes: all but the last have m bytes, the last at most m. */
  ghost predicate IsSplit(parts: seq<Part>, n: nat, m: nat) {
    && EndToEnd(parts, n)
    && (forall k :: 0 <= k < |parts| - 1 ==> parts[k].size == m)
    && (parts != [] ==> parts[|parts| - 1].size <= m)
  }

  /** The parts of the last `rest` bytes of a file, of which the first has slot k and begins at start. */
  function SplitRest(k: nat, start: nat, rest: nat, m: nat): seq<Part>
    requires 0 < m
    decreases rest
  {
    if rest == 0 then []
    else
      var chunk := Min(m, rest);
      [Part(k + 1, k, start, chunk, 0)] + SplitRest(k + 1, start + chunk, rest - chunk, m)
  }

  lemma {:induction false} SplitRestShape(k: nat, start: nat, rest: nat, m: nat)
    requires 0 < m
    ensures var ps := SplitRest(k, start, rest, m);
      && (ps == [] <==> rest == 0)
      && (ps != [] ==>
            && ps[0].start == start && ps[|ps| - 1].start + ps[|ps| - 1].size == start + rest
            && ps[|ps| - 1].size <= m)
      && (forall j :: 0 <= j < |ps| ==>
            ps[j].slot == k + j && ps[j].num == k + j + 1 && ps[j].retryCount == 0 && 0 < ps[j].size)
      && (forall j :: 0 < j < |ps| ==> ps[j].start == ps[j - 1].start + ps[j - 1].size)
      && (forall j :: 0 <= j < |ps| - 1 ==> ps[j].size == m)
    decreases rest
  {
    if rest != 0 {
      var chunk := Min(m, rest);
      SplitRestShape(k + 1, start + chunk, rest - chunk, m);
      var ps, tail := SplitRest(k, start, rest, m), SplitRest(k + 1, start + chunk, rest - chunk, m);
      assert forall j :: 0 < j < |ps| ==> ps[j] == tail[j - 1];
    }
  }

  lemma {:induction false} StartOfPart(parts: seq<Part>, n: nat, m: nat, k: nat)
    requires IsSplit(parts, n, m) && k < |parts|
    ensures parts[k].start == k * m && parts[k].start + parts[k].size <= n
    decreases k
  {
    if k != 0 {
      StartOfPart(parts, n, m, k - 1);
      assert k * m == (k - 1) * m + m;
    }
    PartWithin(parts, n, k);
  }

  lemma {:induction false} PartWithin(parts: seq<Part>, n: nat, k: nat)
    requires EndToEnd(parts, n) && k < |parts|
    ensures parts[k].start + parts[k].size <= n
    decreases |parts| - k
  {
    if k + 1 < |parts| {
      PartWithin(parts, n, k + 1);
    }
  }

  /** The size check of RowFlush keeps the number of parts within the limit of the service. */
  lemma AtMostTenThousand(parts: seq<Part>, n: nat, m: nat)
    requires 0 < m && IsSplit(parts, n, m) && n <= 10000 * m
    ensures |parts| <= 10000
  {
    if parts != [] {
      var k := |parts| - 1;
      StartOfPart(parts, n, m, k);
      assert 10000 <= k ==> 10000 * m <= k * m;
    }
  }

  function EmptySlots(n: nat): (s: seq<string>)
    ensures |s| == n
  {
    seq(n, _ => "")
  }

  method SplitFile(n: nat, m: nat) returns (parts: seq<Part>, etags: seq<string>)
    requires 0 < m
    ensures IsSplit(parts, n, m)
    ensures etags == EmptySlots(|parts|)
  {
    parts, etags := SplitLoop(n, m);
    SplitRestShape(0, 0, n, m);
  }

  lemma OneMoreSlot(n: nat)
    ensures EmptySlots(n) + [""] == EmptySlots(n + 1)
  {
  }

  method SplitLoop(n: nat, m: nat) returns (parts: seq<Part>, etags: seq<string>)
    requires 0 < m
    ensures parts == SplitRest(0, 0, n, m)
    ensures etags == EmptySlots(|parts|)
  {
    parts, etags := [], [];
    var remaining := n;
    while 0 < remaining
      invariant 0 <= remaining <= n && etags == EmptySlots(|parts|)
      invariant SplitRest(0, 0, n, m) == parts + SplitRest(|parts|, n - remaining, remaining, m)
    {
      var chunk := if m < remaining then m else remaining;
      var part := Part(|parts| + 1, |parts|, n - remaining, chunk, 0);
      OneMoreSlot(|parts|);
      Reassociate(parts, [part], SplitRest(|parts| + 1, n - remaining + chunk, remaining - chunk, m));
      etags := etags + [""];
      parts := parts + [part];
      remaining := remaining - chunk;
    }
  }

  // ---------------------------------------------------------------------
  // Rounds of requests
  // ---------------------------------------------------------------------

  /** A request and how it ended. */
  datatype Performed = Performed(part: Part, answer: Answer)

  /** UploadMultipartPostRetryCallback: number and upload id are taken from the URL, slot and range
      from the request itself. */
  function RetryOf(p: Part, urlId: Option<string>, urlNum: Option<int>, retries: nat): Option<Part> {
    if urlId.None? || urlNum.None? then None
    else if retries <= p.retryCount || urlNum.value < 0 then None
    else Some(Part(urlNum.value, p.slot, p.start, p.size, p.retryCount + 1))
  }

  /** A retry keeps the part's number, slot and byte range; it is refused only when the tries are used
      up or the path holds one of the two keywords. */
  lemma RetryKeepsPart(p: Part, base: string, uploadId: string, retries: nat, again: Option<Part>)
    requires '=' !in base && '&' !in uploadId
    requires var url := PartUrl(base, p.num, uploadId);
      again == RetryOf(p, UploadIdIn(url), PartNumberIn(url), retries)
    ensures again == if p.retryCount < retries && !Holds(base, "uploadId") && !Holds(base, "partNumber")
                     then Some(p.(retryCount := p.retryCount + 1)) else None
  {
    UrlReadsBack(base, p.num, uploadId);
    RetryOfFound(p, uploadId, Holds(base, "uploadId"), Holds(base, "partNumber"), retries);
  }

  lemma RetryOfFound(p: Part, id: string, noId: bool, noNum: bool, retries: nat)
    ensures RetryOf(p, if noId then None else Some(id), if noNum then None else Some(p.num), retries)
         == if p.retryCount < retries && !noId && !noNum then Some(p.(retryCount := p.retryCount + 1)) else None
  {
  }

  /** The request is about one of the parts of the split, with that part's number and range. */
  predicate OfSplit(p: Part, split: seq<Part>) {
    p.slot < |split| && p == split[p.slot].(retryCount := p.retryCount)
  }

  function RangeOf(p: Part, data: seq<byte>): seq<byte> { Slice(data, p.start, p.size) }

  predicate Holding(stored: Stored, i: nat) { i + 1 in stored }

  /** Slot i has an ETag only if the server holds part i+1, and then these are the part's bytes. */
  predicate SlotSound(etags: seq<string>, stored: Stored, split: seq<Part>, data: seq<byte>, i: nat)
    requires i < |etags| == |split|
  {
    && (etags[i] != "" ==> Holding(stored, i))
    && (Holding(stored, i) ==> stored[i + 1] == RangeOf(split[i], data))
  }

  ghost predicate Sound(etags: seq<string>, stored: Stored, split: seq<Part>, data: seq<byte>) {
    |etags| == |split| && forall i :: 0 <= i < |etags| ==> SlotSound(etags, stored, split, data, i)
  }

  lemma StoreKeepsSound(etags: seq<string>, stored: Stored, now: Stored, split: seq<Part>, data: seq<byte>, p: Part)
    requires Sound(etags, stored, split, data) && OfSplit(p, split) && p.num == p.slot + 1
    requires now == stored || now == stored[p.num := RangeOf(p, data)]
    ensures Sound(etags, now, split, data) && now.Keys >= stored.Keys
  {
    forall i | 0 <= i < |etags| ensures SlotSound(etags, now, split, data, i) {
      assert SlotSound(etags, stored, split, data, i);
    }
  }

  lemma EtagKeepsSound(etags: seq<string>, stored: Stored, split: seq<Part>, data: seq<byte>, slot: nat, etag: string)
    requires Sound(etags, stored, split, data) && slot < |etags| && Holding(stored, slot)
    ensures Sound(etags[slot := etag], stored, split, data)
  {
    var noted := etags[slot := etag];
    forall i | 0 <= i < |etags| ensures SlotSound(noted, stored, split, data, i) {
      assert SlotSound(etags, stored, split, data, i);
    }
  }

  ghost predicate AllFill(requests: seq<Performed>) { forall r :: r in requests ==> Fills(r.answer) }

  ghost predicate AllFillOrRepeat(requests: seq<Performed>) { forall r :: r in requests ==> FillsOrRepeats(r.answer) }

  /** What the requests of one round meet, by part number. */
  type Round = nat -> seq<PutAttempt>

  ghost predicate SmoothRound(puts: Round, m: nat, retries: nat) { forall num :: SmoothPut(puts(num), m, retries) }

  ghost predicate FairRound(puts: Round, m: nat, retries: nat) { forall num :: FairPut(puts(num), m, retries) }

  /** In every round every part is taken; or every part is taken or refused in a way that is tried again. */
  ghost predicate AlwaysSmooth(puts: nat -> Round, m: nat, retries: nat) {
    forall k :: SmoothRound(puts(k), m, retries)
  }

  ghost predicate AlwaysFair(puts: nat -> Round, m: nat, retries: nat) { forall k :: FairRound(puts(k), m, retries) }

  predicate Queued(i: nat, all: seq<Part>) { exists p :: p in all && p.slot == i }

  predicate Asked(i: nat, requests: seq<Performed>) { exists r :: r in requests && r.part.slot == i }

  /** Every slot without an ETag is still queued or asked for. */
  ghost predicate NoneForgotten(etags: seq<string>, all: seq<Part>, requests: seq<Performed>) {
    forall i :: 0 <= i < |etags| && etags[i] == "" ==> Queued(i, all) || Asked(i, requests)
  }

  lemma AskedNext(i: nat, requests: seq<Performed>)
    requires requests != []
    ensures Asked(i, requests) <==> i == requests[0].part.slot || Asked(i, requests[1..])
  {
    assert requests == [requests[0]] + requests[1..];
    assert requests[0] in requests;
  }

  lemma SlotFilled(etags: seq<string>, all: seq<Part>, requests: seq<Performed>, etag: string)
    requires requests != [] && NoneForgotten(etags, all, requests) && etag != "" && requests[0].part.slot < |etags|
    ensures NoneForgotten(etags[requests[0].part.slot := etag], all, requests[1..])
  {
    forall i | 0 <= i < |etags| && i != requests[0].part.slot && etags[i] == ""
      ensures Queued(i, all) || Asked(i, requests[1..])
    {
      AskedNext(i, requests);
    }
  }

  lemma SlotQueued(etags: seq<string>, all: seq<Part>, requests: seq<Performed>, p: Part)
    requires requests != [] && NoneForgotten(etags, all, requests) && p.slot == requests[0].part.slot
    ensures NoneForgotten(etags, all + [p], requests[1..])
  {
    forall i | 0 <= i < |etags| && etags[i] == ""
      ensures Queued(i, all + [p]) || Asked(i, requests[1..])
    {
      AskedNext(i, requests);
      if i == p.slot {
        assert p in all + [p];
      } else if Queued(i, all) {
        var q :| q in all && q.slot == i;
        assert q in all + [p];
      }
    }
  }

  lemma AllQueued(parts: seq<Part>, etags: seq<string>)
    requires |etags| == |parts| && forall k :: 0 <= k < |parts| ==> parts[k].slot == k
    ensures NoneForgotten(etags, parts, [])
  {
    forall i | 0 <= i < |etags| && etags[i] == "" ensures Queued(i, parts) {
      assert parts[i] in parts;
    }
  }

  /** The same requests, some of them answered. */
  ghost predicate SameSlots(before: seq<Performed>, after: seq<Performed>) {
    |after| == |before| && forall k :: 0 <= k < |before| ==> after[k].part.slot == before[k].part.slot
  }

  lemma StillAsked(before: seq<Performed>, after: seq<Performed>, etags: seq<string>)
    requires SameSlots(before, after) && NoneForgotten(etags, [], before)
    ensures NoneForgotten(etags, [], after)
  {
    forall i | 0 <= i < |etags| && etags[i] == "" ensures Asked(i, after) {
      assert !Queued(i, []);
      var r :| r in before && r.part.slot == i;
      var k :| 0 <= k < |before| && before[k] == r;
      assert after[k] in after;
    }
  }

  /** A request of a round, performed or not: it is about a part of the split, was tried in all earlier
      rounds, and has an ETag only if the server holds its part. */
  ghost predicate RequestOk(r: Performed, split: seq<Part>, stored: Stored, round: nat) {
    OfSplit(r.part, split) && round <= r.part.retryCount && (r.answer.etag != "" ==> Holding(stored, r.part.slot))
  }

  ghost predicate AllOk(requests: seq<Performed>, split: seq<Part>, stored: Stored, round: nat) {
    forall k :: 0 <= k < |requests| ==> RequestOk(requests[k], split, stored, round)
  }

  lemma OneMoreOk(requests: seq<Performed>, split: seq<Part>, stored: Stored, now: Stored, round: nat, i: nat,
                  r: Performed)
    requires i < |requests| && AllOk(requests, split, stored, round) && now.Keys >= stored.Keys
    requires RequestOk(r, split, now, round)
    ensures AllOk(requests[i := r], split, now, round)
  {
    var more := requests[i := r];
    forall k | 0 <= k < |more| ensures RequestOk(more[k], split, now, round) {
      assert RequestOk(requests[k], split, stored, round);
    }
  }

  /** Every request that is not still to be performed came to what it met. */
  ghost predicate Came(requests: seq<Performed>, todo: set<nat>, smooth: bool, fair: bool) {
    forall k: nat :: k < |requests| && k !in todo ==>
      (smooth ==> Fills(requests[k].answer)) && (fair ==> FillsOrRepeats(requests[k].answer))
  }

  lemma AllCame(requests: seq<Performed>, smooth: bool, fair: bool)
    requires Came(requests, {}, smooth, fair)
    ensures (smooth ==> AllFill(requests)) && (fair ==> AllFillOrRepeat(requests))
  {
    forall r | r in requests ensures (smooth ==> Fills(r.answer)) && (fair ==> FillsOrRepeats(r.answer)) {
      var k :| 0 <= k < |requests| && requests[k] == r;
      assert k !in {};
    }
  }

  lemma QueuedToAsked(etags: seq<string>, all: seq<Part>, requests: seq<Performed>)
    requires |requests| == |all| && NoneForgotten(etags, all, [])
    requires forall k :: 0 <= k < |all| ==> requests[k].part == all[k]
    ensures NoneForgotten(etags, [], requests)
  {
    forall i | 0 <= i < |etags| && etags[i] == "" ensures Asked(i, requests) {
      assert !Asked(i, []);
      var p :| p in all && p.slot == i;
      var k :| 0 <= k < |all| && all[k] == p;
      assert requests[k] in requests;
    }
  }

  /** A split of a file into parts of at most m bytes, with their slots and numbers. */
  ghost predicate SplitOf(split: seq<Part>, n: nat, m: nat) {
    forall k :: 0 <= k < |split| ==>
      split[k].slot == k && split[k].num == k + 1 && split[k].size <= m && split[k].start + split[k].size <= n
  }

  class MultiCurl {
    const file: LocalFile
    const retries: nat
    const base: string       // the URL up to the query
    const uploadId: string
    var clistAll: seq<Part>
    var clistReq: seq<Performed>
    var etags: seq<string>
    var stored: Stored

    ghost predicate Valid(split: seq<Part>, m: nat)
      reads this, file
    {
      && '=' !in base && '&' !in uploadId && SplitOf(split, |file.data|, m)
      && (forall p :: p in clistAll ==> OfSplit(p, split))
      && AllOk(clistReq, split, stored, 0)
      && Sound(etags, stored, split, file.data)
    }

    constructor (file: LocalFile, retries: nat, base: string, uploadId: string, parts: seq<Part>, etags: seq<string>)
      ensures clistAll == parts && clistReq == [] && this.etags == etags && stored == map[]
      ensures this.file == file && this.retries == retries && this.base == base && this.uploadId == uploadId
    {
      this.file, this.retries, this.base, this.uploadId := file, retries, base, uploadId;
      clistAll, clistReq, this.etags, stored := parts, [], etags, map[];
    }

    /** Perform all requests; the threads may get through in any order. */
    method MultiPerform(puts: Round, ghost split: seq<Part>, ghost m: nat, ghost round: nat)
      requires Valid(split, m) && AllOk(clistReq, split, stored, round)
      modifies `clistReq, `stored
      ensures Valid(split, m) && AllOk(clistReq, split, stored, round) && stored.Keys >= old(stored.Keys)
      ensures SameSlots(old(clistReq), clistReq)
      ensures SmoothRound(puts, m, retries) ==> AllFill(clistReq)
      ensures FairRound(puts, m, retries) ==> AllFillOrRepeat(clistReq)
    {
      ghost var smooth, fair := SmoothRound(puts, m, retries), FairRound(puts, m, retries);
      var todo: set<nat> := Places(|clistReq|);
      while todo != {}
        invariant Valid(split, m) && AllOk(clistReq, split, stored, round) && stored.Keys >= old(stored.Keys)
        invariant SameSlots(old(clistReq), clistReq) && Came(clistReq, todo, smooth, fair)
        invariant forall i :: i in todo ==> i < |clistReq|
        decreases |todo|
      {
        var i :| i in todo;
        ghost var before := clistReq;
        PerformAt(i, puts, split, m, round);
        assert Came(clistReq, todo - {i}, smooth, fair);
        todo := todo - {i};
      }
      AllCame(clistReq, smooth, fair);
    }

    /** One thread. */
    method PerformAt(i: nat, puts: Round, ghost split: seq<Part>, ghost m: nat, ghost round: nat)
      requires Valid(split, m) && AllOk(clistReq, split, stored, round) && i < |clistReq|
      modifies `clistReq, `stored
      ensures Valid(split, m) && AllOk(clistReq, split, stored, round) && stored.Keys >= old(stored.Keys)
      ensures |clistReq| == |old(clistReq)| && clistReq == old(clistReq)[i := clistReq[i]]
      ensures clistReq[i].part.slot == old(clistReq)[i].part.slot
      ensures AnswerOf(clistReq[i].answer, puts(old(clistReq)[i].part.num), m, retries)
    {
      var p := clistReq[i].part;
      assert RequestOk(clistReq[i], split, stored, round);
      assert p.slot < |split| && split[p.slot].num == p.slot + 1;
      var request := new PutRequest(file, p.num, p.start, p.size, p.retryCount);
      var result, now := request.RequestPerform(puts(p.num), retries, stored);
      StoreKeepsSound(etags, stored, now, split, file.data, p);
      SmallerPart(request.Result(), puts(p.num), p.size, m, retries);
      var r := Performed(p.(retryCount := request.retryCount), request.Result());
      OneMoreOk(clistReq, split, stored, now, round, i, r);
      OneMoreOk(clistReq, split, stored, now, 0, i, r);
      clistReq, stored := clistReq[i := r], now;
    }

    /** Read the answers: note the ETags, queue what is to be tried again. */
    method MultiRead(ghost split: seq<Part>, ghost m: nat, ghost round: nat) returns (result: int)
      requires Valid(split, m) && AllOk(clistReq, split, stored, round) && clistAll == []
      modifies `clistAll, `clistReq, `etags
      ensures Valid(split, m)
      ensures forall p :: p in clistAll ==> round + 1 <= p.retryCount <= retries
      ensures result == 0 ==> clistReq == []
      ensures result == 0 && NoneForgotten(old(etags), [], old(clistReq)) && AllFillOrRepeat(old(clistReq)) ==>
        NoneForgotten(etags, clistAll, [])
      ensures AllFill(old(clistReq)) ==> result == 0 && clistAll == []
    {
      var i := 0;
      assert clistReq[0..] == clistReq;
      ghost var kept := NoneForgotten(etags, [], clistReq) && AllFillOrRepeat(clistReq);
      while i < |clistReq|
        invariant i <= |clistReq| && clistReq == old(clistReq) && Valid(split, m)
        invariant forall p :: p in clistAll ==> round + 1 <= p.retryCount <= retries
        invariant kept ==> NoneForgotten(etags, clistAll, clistReq[i..])
        invariant AllFill(clistReq) ==> clistAll == []
      {
        var r := clistReq[i];
        assert r in clistReq && RequestOk(r, split, stored, round);
        assert clistReq[i..][0] == r && clistReq[i..][1..] == clistReq[i + 1..];
        if !Repeated(r.answer.code) {
          if r.answer.code < 400 && r.answer.etag != "" && r.answer.md5Fits {
            EtagKeepsSound(etags, stored, split, file.data, r.part.slot, r.answer.etag);
            if kept { SlotFilled(etags, clistAll, clistReq[i..], r.answer.etag); }
            etags := etags[r.part.slot := r.answer.etag];
          }
        } else {
          var url := PartUrl(base, r.part.num, uploadId);
          var again := RetryOf(r.part, UploadIdIn(url), PartNumberIn(url), retries);
          RetryKeepsPart(r.part, base, uploadId, retries, again);
          if again.None? {
            return -EIO;
          }
          if kept { SlotQueued(etags, clistAll, clistReq[i..], again.value); }
          clistAll := clistAll + [again.value];
        }
        i := i + 1;
      }
      clistReq := [];
      return 0;
    }

    /** Rounds of requests until nothing is left to try again. */
    method Request(puts: nat -> Round, ghost split: seq<Part>, ghost m: nat) returns (result: int, rounds: nat)
      requires Valid(split, m) && clistReq == []
      modifies this
      ensures Valid(split, m) && rounds <= retries + 1
      ensures result == 0 ==> clistAll == []
      ensures result == 0 && NoneForgotten(old(etags), old(clistAll), []) && AlwaysFair(puts, m, retries) ==>
        "" !in etags
      ensures AlwaysSmooth(puts, m, retries) ==> result == 0
    {
      rounds := 0;
      ghost var kept := NoneForgotten(etags, clistAll, []) && AlwaysFair(puts, m, retries);
      while clistAll != []
        invariant Valid(split, m) && clistReq == [] && rounds <= retries + 1
        invariant forall p :: p in clistAll ==> rounds <= p.retryCount
        invariant rounds != 0 ==> forall p :: p in clistAll ==> p.retryCount <= retries
        invariant kept ==> NoneForgotten(etags, clistAll, [])
        decreases retries + 1 - rounds
      {
        assert clistAll[0] in clistAll;
        result := OneRound(puts(rounds), split, m, rounds);
        rounds := rounds + 1;
        if result != 0 {
          clistReq, clistAll := [], [];
          return;
        }
      }
      return 0, rounds;
    }

    /** One round: everything queued is asked for, and the answers are read. */
    method OneRound(puts: Round, ghost split: seq<Part>, ghost m: nat, ghost round: nat) returns (result: int)
      requires Valid(split, m) && clistReq == [] && forall p :: p in clistAll ==> round <= p.retryCount
      modifies this
      ensures Valid(split, m) && (result == 0 ==> clistReq == [])
      ensures forall p :: p in clistAll ==> round + 1 <= p.retryCount <= retries
      ensures result == 0 && NoneForgotten(old(etags), old(clistAll), []) && FairRound(puts, m, retries) ==>
        NoneForgotten(etags, clistAll, [])
      ensures SmoothRound(puts, m, retries) ==> result == 0 && clistAll == []
    {
      var unanswered := Answer(-1, "", false);
      clistReq := seq(|clistAll|, i requires 0 <= i < |clistAll| reads this => Performed(clistAll[i], unanswered));
      forall k | 0 <= k < |clistReq| ensures RequestOk(clistReq[k], split, stored, round) {
        assert clistReq[k].part == clistAll[k] && clistAll[k] in clistAll;
      }
      if NoneForgotten(etags, clistAll, []) { QueuedToAsked(etags, clistAll, clistReq); }
      clistAll := [];
      ghost var asked := clistReq;
      MultiPerform(puts, split, m, round);
      if NoneForgotten(etags, [], asked) { StillAsked(asked, clistReq, etags); }
      result := MultiRead(split, m, round);
    }
  }

  // ---------------------------------------------------------------------
  // Putting the parts together
  // ---------------------------------------------------------------------

  function PartEntry(num: nat, etag: string): string {
    "<Part>\n" + "  <PartNumber>" + Decimal(num) + "</PartNumber>\n" + "  <ETag>" + etag + "</ETag>\n" + "</Part>\n"
  }

  function Entries(etags: seq<string>): string {
    if etags == [] then "" else Entries(etags[..|etags| - 1]) + PartEntry(|etags|, etags[|etags| - 1])
  }

  lemma EntriesStep(etags: seq<string>, k: nat, open: string)
    requires k < |etags|
    ensures open + Entries(etags[..k + 1]) == open + Entries(etags[..k]) + PartEntry(k + 1, etags[k])
  {
    assert etags[..k + 1][..k] == etags[..k];
  }

  /** The body of the completing request: built only if every slot has an ETag. */
  method CompleteBody(etags: seq<string>) returns (body: Option<string>)
    ensures body.Some? <==> "" !in etags
    ensures body.Some? ==> body.value == "<CompleteMultipartUpload>\n" + Entries(etags) + "</CompleteMultipartUpload>\n"
  {
    var content := "<CompleteMultipartUpload>\n";
    var cnt := 0;
    while cnt < |etags|
      invariant cnt <= |etags| && "" !in etags[..cnt]
      invariant content == "<CompleteMultipartUpload>\n" + Entries(etags[..cnt])
    {
      if |etags[cnt]| == 0 {
        return None;
      }
      EntriesStep(etags, cnt, "<CompleteMultipartUpload>\n");
      content := content + PartEntry(cnt + 1, etags[cnt]);
      cnt := cnt + 1;
    }
    assert etags[..cnt] == etags;
    return Some(content + "</CompleteMultipartUpload>\n");
  }

  /** What the server makes of parts 1..n. */
  function Assembled(stored: Stored, n: nat): seq<byte>
    requires forall i :: 0 <= i < n ==> Holding(stored, i)
  {
    if n == 0 then [] else assert Holding(stored, n - 1); Assembled(stored, n - 1) + stored[n]
  }

  /** The first k parts of a sound upload are the front of the file. */
  lemma {:induction false} FrontAssembled(stored: Stored, split: seq<Part>, data: seq<byte>, k: nat)
    requires EndToEnd(split, |data|) && k <= |split|
    requires forall i :: 0 <= i < |split| ==> Holding(stored, i) && stored[i + 1] == RangeOf(split[i], data)
    ensures var end := if k == 0 then 0 else split[k - 1].start + split[k - 1].size;
      end <= |data| && Assembled(stored, k) == data[..end]
  {
    if k != 0 {
      FrontAssembled(stored, split, data, k - 1);
      PartWithin(split, |data|, k - 1);
      var p := split[k - 1];
      assert Holding(stored, k - 1) && stored[k] == data[p.start..p.start + p.size];
      assert data[..p.start] + data[p.start..p.start + p.size] == data[..p.start + p.size];
    }
  }

  /** The whole upload: if it reports success, the object the server put together is the file. */
  method ParallelMultipartUploadRequest(file: LocalFile, m: nat, retries: nat, base: string, uploadId: string,
                                        puts: nat -> Round, completeWorks: bool)
    returns (result: int, made: Option<seq<byte>>, rounds: nat)
    requires 0 < m && '=' !in base && '&' !in uploadId
    ensures result == 0 ==> made == Some(file.data)
    ensures result != 0 ==> made == None
    ensures completeWorks && AlwaysSmooth(puts, m, retries) ==> result == 0
    ensures rounds <= retries + 1
  {
    var parts, etags := SplitFile(|file.data|, m);
    SplitIsOf(parts, |file.data|, m);
    var curl := new MultiCurl(file, retries, base, uploadId, parts, etags);
    AllQueued(parts, etags);
    result, rounds := curl.Request(puts, parts, m);
    if result != 0 {
      return result, None, rounds;
    }
    var body := CompleteBody(curl.etags);
    if AlwaysSmooth(puts, m, retries) { SmoothIsFair(puts, m, retries); }
    if body.None? || !completeWorks {
      return -1, None, rounds;
    }
    made := Assemble(curl.etags, curl.stored, parts, file.data);
    return 0, made, rounds;
  }

  /** What the server does with the completing request. */
  method Assemble(etags: seq<string>, stored: Stored, split: seq<Part>, data: seq<byte>)
    returns (made: Option<seq<byte>>)
    requires EndToEnd(split, |data|) && Sound(etags, stored, split, data) && "" !in etags
    ensures made == Some(data)
  {
    forall i | 0 <= i < |split| ensures Holding(stored, i) && stored[i + 1] == RangeOf(split[i], data) {
      assert etags[i] in etags;
      assert SlotSound(etags, stored, split, data, i);
    }
    FrontAssembled(stored, split, data, |split|);
    assert data[..|data|] == data;
    return Some(Assembled(stored, |split|));
  }

  lemma SmoothIsFair(puts: nat -> Round, m: nat, retries: nat)
    requires AlwaysSmooth(puts, m, retries)
    ensures AlwaysFair(puts, m, retries)
  {
    forall k, num ensures FairPut(puts(k)(num), m, retries) {
      assert SmoothRound(puts(k), m, retries) && SmoothPut(puts(k)(num), m, retries);
    }
  }

  lemma SplitIsOf(parts: seq<Part>, n: nat, m: nat)
    requires IsSplit(parts, n, m)
    ensures SplitOf(parts, n, m)
  {
    forall k | 0 <= k < |parts| ensures parts[k].start + parts[k].size <= n && parts[k].size <= m {
      PartWithin(parts, n, k);
    }
  }
}
