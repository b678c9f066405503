/** One ranged GET: the callback that stores what arrives, and the loop that repeats the
    request after a failure. */
module Downloads {
  import opened LocalFiles
  import opened Requests
  import opened Text

  /** A piece that arrives, and how the pwrite calls that store it end; calls past the list work. */
  datatype Chunk = Chunk(bytes: seq<byte>, io: seq<int>)

  type GetAttempt = Attempt<seq<Chunk>>

  function Delivered(chunks: seq<Chunk>): seq<byte> {
    if chunks == [] then [] else chunks[0].bytes + Delivered(chunks[1..])
  }

  /** The disk takes every piece whole, and the pieces fit the range. */
  predicate Clean(chunks: seq<Chunk>, size: nat) {
    |Delivered(chunks)| <= size && forall c :: c in chunks ==> c.io == []
  }

  lemma CleanRest(chunks: seq<Chunk>, size: nat)
    requires chunks != [] && Clean(chunks, size)
    ensures chunks[0].io == [] && |chunks[0].bytes| <= size && Clean(chunks[1..], size - |chunks[0].bytes|)
  {
    assert chunks[0] in chunks;
  }

  /** Nothing outside [start, start+size) differs, and the file grows at most to start+size. */
  ghost predicate SameOutside(before: seq<byte>, after: seq<byte>, start: nat, size: nat) {
    && |before| <= |after|
    && (|after| == |before| || |after| <= start + size)
    && forall i :: 0 <= i < |before| && !(start <= i < start + size) ==> after[i] == before[i]
  }

  lemma StillSameOutside(a: seq<byte>, b: seq<byte>, c: seq<byte>, start: nat, size: nat)
    requires SameOutside(a, b, start, size) && SameOutside(b, c, start, size)
    ensures SameOutside(a, c, start, size)
  {
  }

  lemma StoredReads(data: seq<byte>, start: nat, bytes: seq<byte>)
    ensures Slice(Overwrite(data, start, bytes), start, |bytes|) == bytes
  {
  }

  // ---------------------------------------------------------------------
  // What one piece, one attempt and one request do to the file
  // ---------------------------------------------------------------------

  /** How far a run of pwrite calls gets from total towards length, and whether it ends in an error. */
  function Written(total: nat, length: nat, io: seq<int>): (r: (nat, bool))
    requires total <= length
    ensures total <= r.0 <= length && (io == [] ==> r == (length, false))
    decreases io
  {
    if total == length then (total, false)
    else if io == [] then (length, false)
    else if io[0] < 0 then (total, true)
    else if io[0] == 0 then (total, false)
    else Written(if io[0] < length - total then total + io[0] else length, length, io[1..])
  }

  /** One more pwrite that writes something. */
  lemma WrittenMore(total: nat, length: nat, io: seq<int>, k: nat)
    requires total < length && k <= |io| && (k < |io| ==> 0 < io[k])
    ensures var n := if k < |io| && io[k] < length - total then io[k] else length - total;
      Written(total, length, io[k..]) == Written(total + n, length, if k < |io| then io[k + 1..] else io[k..])
  {
    if k < |io| { assert io[k..][1..] == io[k + 1..]; }
  }

  /** The file, the position within the range, and whether curl was told to stop. */
  datatype Fed = Fed(data: seq<byte>, pos: nat, stopped: bool)

  function Store(data: seq<byte>, start: nat, size: nat, pos: nat, c: Chunk): (f: Fed)
    requires pos <= size
    ensures pos <= f.pos <= size
  {
    if c.bytes == [] then Fed(data, pos, false)
    else
      var (t, failed) := Written(0, if |c.bytes| < size - pos then |c.bytes| else size - pos, c.io);
      Fed(Overwrite(data, start + pos, c.bytes[..t]), if failed then pos else pos + t, failed || t != |c.bytes|)
  }

  lemma StoreMeans(data: seq<byte>, start: nat, size: nat, pos: nat, c: Chunk, n: nat, t: nat, failed: bool)
    requires pos < size && c.bytes != [] && n == (if |c.bytes| < size - pos then |c.bytes| else size - pos)
    requires t <= n && (t, failed) == Written(0, n, c.io)
    ensures Store(data, start, size, pos, c)
         == Fed(Overwrite(data, start + pos, c.bytes[..n][..t]), if failed then pos else pos + t,
                failed || t != |c.bytes|)
  {
    assert c.bytes[..n][..t] == c.bytes[..t];
  }

  function StoreAll(data: seq<byte>, start: nat, size: nat, pos: nat, chunks: seq<Chunk>): (f: Fed)
    requires pos <= size
    ensures pos <= f.pos <= size
    decreases |chunks|
  {
    if chunks == [] then Fed(data, pos, false)
    else
      var f := Store(data, start, size, pos, chunks[0]);
      if f.stopped then f else StoreAll(f.data, start, size, f.pos, chunks[1..])
  }

  /** A request after it was performed: file, stored bytes, response code, result, handles remade. */
  datatype Tried = Tried(data: seq<byte>, pos: nat, code: int, result: int, remakes: nat)

  function FirstOf(attempts: seq<GetAttempt>): GetAttempt {
    if attempts == [] then Attempt([], Fatal) else attempts[0]
  }

  function RestOf(attempts: seq<GetAttempt>): seq<GetAttempt> {
    if attempts == [] then [] else attempts[1..]
  }

  function TriedBy(data: seq<byte>, start: nat, size: nat, attempts: seq<GetAttempt>, left: nat): (t: Tried)
    ensures t.pos <= size
    decreases left
  {
    if left == 0 then Tried(data, 0, -1, -EIO, 0)
    else
      var f := StoreAll(data, start, size, 0, FirstOf(attempts).body);
      var outcome := if f.stopped then Transient else FirstOf(attempts).outcome;
      if Final(outcome) then Tried(f.data, f.pos, CodeOf(outcome), ResultOf(outcome), 0)
      else
        var t := TriedBy(f.data, start, size, RestOf(attempts), left - 1);
        t.(remakes := t.remakes + 1)
  }

  lemma {:induction false} StoreAllOutside(data: seq<byte>, start: nat, size: nat, pos: nat, chunks: seq<Chunk>)
    requires pos <= size
    ensures SameOutside(data, StoreAll(data, start, size, pos, chunks).data, start, size)
    decreases |chunks|
  {
    if chunks != [] {
      var f := Store(data, start, size, pos, chunks[0]);
      if !f.stopped {
        StoreAllOutside(f.data, start, size, f.pos, chunks[1..]);
        StillSameOutside(data, f.data, StoreAll(data, start, size, pos, chunks).data, start, size);
      }
    }
  }

  /** An attempt that is not stopped leaves what was delivered, in place. */
  lemma {:induction false} StoreAllWhole(data: seq<byte>, start: nat, size: nat, pos: nat, chunks: seq<Chunk>)
    requires pos <= size
    ensures var f, d := StoreAll(data, start, size, pos, chunks), Delivered(chunks);
      && (!f.stopped ==> f.pos == pos + |d| && f.data == Overwrite(data, start + pos, d))
      && (Clean(chunks, size - pos) ==> !f.stopped)
    decreases |chunks|
  {
    if chunks != [] {
      var f, c := Store(data, start, size, pos, chunks[0]), chunks[0];
      if Clean(chunks, size - pos) { CleanRest(chunks, size - pos); }
      assert c.bytes[..|c.bytes|] == c.bytes;
      if !f.stopped {
        StoreAllWhole(f.data, start, size, f.pos, chunks[1..]);
        OverwriteTwice(data, start + pos, c.bytes, Delivered(chunks[1..]));
      }
    }
  }

  /** A request touches nothing outside its range. */
  lemma {:induction false} TriedOutside(data: seq<byte>, start: nat, size: nat, attempts: seq<GetAttempt>, left: nat)
    ensures SameOutside(data, TriedBy(data, start, size, attempts, left).data, start, size)
    decreases left
  {
    if left != 0 {
      var f := StoreAll(data, start, size, 0, FirstOf(attempts).body);
      StoreAllOutside(data, start, size, 0, FirstOf(attempts).body);
      TriedOutside(f.data, start, size, RestOf(attempts), left - 1);
      StillSameOutside(data, f.data, TriedBy(f.data, start, size, RestOf(attempts), left - 1).data, start, size);
    }
  }

  /** A result of 0 comes from an attempt within the limit that was answered with success, and leaves
      exactly what that attempt delivered. */
  lemma {:induction false} TriedSuccess(data: seq<byte>, start: nat, size: nat, attempts: seq<GetAttempt>, left: nat)
    requires TriedBy(data, start, size, attempts, left).result == 0
    ensures var t := TriedBy(data, start, size, attempts, left);
      && t.remakes < left && t.remakes < |attempts| && Success(attempts[t.remakes].outcome)
      && t.code == attempts[t.remakes].outcome.code
      && t.pos == |Delivered(attempts[t.remakes].body)|
      && Slice(t.data, start, t.pos) == Delivered(attempts[t.remakes].body)
    decreases left
  {
    var body := FirstOf(attempts).body;
    var f := StoreAll(data, start, size, 0, body);
    StoreAllWhole(data, start, size, 0, body);
    if !f.stopped && Final(FirstOf(attempts).outcome) {
      StoredReads(data, start, Delivered(body));
    } else {
      TriedSuccess(f.data, start, size, RestOf(attempts), left - 1);
    }
  }

  /** The first final answer, if its pieces fit and the disk takes them, decides the request. */
  lemma {:induction false} TriedFinal(data: seq<byte>, start: nat, size: nat, attempts: seq<GetAttempt>, left: nat,
                                      j: nat)
    requires j < left && FinalAt(attempts, j) && Clean(attempts[j].body, size)
    ensures var t, d := TriedBy(data, start, size, attempts, left), Delivered(attempts[j].body);
      && t.remakes == j && t.result == ResultOf(attempts[j].outcome) && t.code == CodeOf(attempts[j].outcome)
      && t.pos == |d| && Slice(t.data, start, |d|) == d
    decreases j
  {
    if j == 0 {
      TriedAtOnce(data, start, size, attempts, left);
    } else {
      FinalLater(attempts, j);
      TriedFinal(StoreAll(data, start, size, 0, attempts[0].body).data, start, size, attempts[1..], left - 1, j - 1);
    }
  }

  lemma TriedAtOnce(data: seq<byte>, start: nat, size: nat, attempts: seq<GetAttempt>, left: nat)
    requires 0 < left && attempts != [] && Final(attempts[0].outcome) && Clean(attempts[0].body, size)
    ensures var d := Delivered(attempts[0].body);
      TriedBy(data, start, size, attempts, left)
        == Tried(Overwrite(data, start, d), |d|, CodeOf(attempts[0].outcome), ResultOf(attempts[0].outcome), 0)
      && Slice(Overwrite(data, start, d), start, |d|) == d
  {
    StoreAllWhole(data, start, size, 0, attempts[0].body);
    StoredReads(data, start, Delivered(attempts[0].body));
  }

  // ---------------------------------------------------------------------
  // A request works on its range alone
  // ---------------------------------------------------------------------

  /** data with the bytes from start on replaced. */
  function Splice(data: seq<byte>, start: nat, range: seq<byte>): (r: seq<byte>)
    requires start + |range| <= |data|
    ensures |r| == |data|
  {
    data[..start] + range + data[start + |range|..]
  }

  function Cut(data: seq<byte>, start: nat, size: nat): (r: seq<byte>)
    requires start + size <= |data|
    ensures |r| == size
  {
    data[start..start + size]
  }

  lemma SpliceCut(data: seq<byte>, start: nat, range: seq<byte>)
    requires start + |range| <= |data|
    ensures Cut(Splice(data, start, range), start, |range|) == range
    ensures Splice(data, start, Cut(data, start, |range|)) == data
  {
  }

  lemma SpliceOverwrite(data: seq<byte>, start: nat, range: seq<byte>, pos: nat, bytes: seq<byte>)
    requires start + |range| <= |data| && pos + |bytes| <= |range|
    ensures |Overwrite(range, pos, bytes)| == |range|
    ensures Overwrite(Splice(data, start, range), start + pos, bytes)
         == Splice(data, start, Overwrite(range, pos, bytes))
  {
    var a := Overwrite(Splice(data, start, range), start + pos, bytes);
    var b := Splice(data, start, Overwrite(range, pos, bytes));
    forall i | 0 <= i < |data| ensures a[i] == b[i] {
    }
  }

  lemma StoreSpliced(data: seq<byte>, start: nat, range: seq<byte>, pos: nat, c: Chunk)
    requires start + |range| <= |data| && pos <= |range|
    ensures var f := Store(range, 0, |range|, pos, c);
      && |f.data| == |range|
      && Store(Splice(data, start, range), start, |range|, pos, c) == f.(data := Splice(data, start, f.data))
  {
    if c.bytes != [] {
      var t := Written(0, if |c.bytes| < |range| - pos then |c.bytes| else |range| - pos, c.io).0;
      SpliceOverwrite(data, start, range, pos, c.bytes[..t]);
    }
  }

  lemma {:induction false} StoreAllSpliced(data: seq<byte>, start: nat, range: seq<byte>, pos: nat, chunks: seq<Chunk>)
    requires start + |range| <= |data| && pos <= |range|
    ensures var f := StoreAll(range, 0, |range|, pos, chunks);
      && |f.data| == |range|
      && StoreAll(Splice(data, start, range), start, |range|, pos, chunks) == f.(data := Splice(data, start, f.data))
    decreases |chunks|
  {
    if chunks != [] {
      var f := Store(range, 0, |range|, pos, chunks[0]);
      StoreSpliced(data, start, range, pos, chunks[0]);
      if !f.stopped {
        StoreAllSpliced(data, start, f.data, f.pos, chunks[1..]);
      }
    }
  }

  /** What a request does to a file that holds its range is what it does to the range alone. */
  lemma {:induction false} TriedSpliced(data: seq<byte>, start: nat, range: seq<byte>, attempts: seq<GetAttempt>,
                                        left: nat)
    requires start + |range| <= |data|
    ensures var t := TriedBy(range, 0, |range|, attempts, left);
      && |t.data| == |range|
      && TriedBy(Splice(data, start, range), start, |range|, attempts, left) == t.(data := Splice(data, start, t.data))
    decreases left
  {
    if left != 0 {
      var f := StoreAll(range, 0, |range|, 0, FirstOf(attempts).body);
      StoreAllSpliced(data, start, range, 0, FirstOf(attempts).body);
      TriedSpliced(data, start, f.data, RestOf(attempts), left - 1);
    }
  }

  // ---------------------------------------------------------------------
  // The request
  // ---------------------------------------------------------------------

  class GetRequest {
    const file: LocalFile
    var startpos: nat
    var size: nat
    const bStartpos: nat       // backup for retrying
    const bSize: nat           // backup for retrying
    var lastResponseCode: int
    var retryCount: nat

    ghost predicate Valid()
      reads this
    {
      bStartpos <= startpos && startpos + size == bStartpos + bSize
    }

    /** How many bytes the current attempt has stored. */
    function Stored(): nat
      requires Valid()
      reads this
    {
      startpos - bStartpos
    }

    constructor (file: LocalFile, start: nat, size: nat, retryCount: nat)
      ensures Valid() && Stored() == 0
      ensures this.file == file && bStartpos == start && bSize == size
      ensures lastResponseCode == -1 && this.retryCount == retryCount
    {
      this.file := file;
      startpos, this.size := start, size;
      bStartpos, bSize := start, size;
      lastResponseCode, this.retryCount := -1, retryCount;
    }

    /** Store a piece at the current position.  Returning less than its length makes curl stop. */
    method DownloadWriteCallback(bytes: seq<byte>, io: seq<int>) returns (n: nat)
      requires Valid()
      modifies `startpos, `size, file
      ensures Valid() && n <= |bytes|
      ensures var f := Store(old(file.data), bStartpos, bSize, old(Stored()), Chunk(bytes, io));
        file.data == f.data && Stored() == f.pos && (n != |bytes| <==> f.stopped)
    {
      if |bytes| < 1 {
        return 0;
      }
      if size <= 0 {
        assert bytes[..0] == [];
        return 0;
      }
      var copysize := if |bytes| < size then |bytes| else size;
      ghost var before := file.data;
      var totalwrite, failed := WritePieces(bytes[..copysize], io);
      StoreMeans(before, bStartpos, bSize, Stored(), Chunk(bytes, io), copysize, totalwrite, failed);
      if failed {
        return 0;
      }
      startpos := startpos + totalwrite;
      size := size - totalwrite;
      return totalwrite;
    }

    /** The pwrite loop of the callback; io says how each system call ends. */
    method WritePieces(bytes: seq<byte>, io: seq<int>) returns (totalwrite: nat, failed: bool)
      modifies file
      ensures totalwrite <= |bytes| && (totalwrite, failed) == Written(0, |bytes|, io)
      ensures file.data == Overwrite(old(file.data), startpos, bytes[..totalwrite])
    {
      totalwrite := 0;
      var k := 0;
      ghost var before := file.data;
      while totalwrite < |bytes|
        invariant totalwrite <= |bytes| && k <= |io|
        invariant Written(0, |bytes|, io) == Written(totalwrite, |bytes|, io[k..])
        invariant file.data == Overwrite(before, startpos, bytes[..totalwrite])
        decreases |bytes| - totalwrite
      {
        var answer := if k < |io| then io[k] else |bytes|;
        var writebytes := file.Pwrite(bytes[totalwrite..], startpos + totalwrite, answer);
        if writebytes == 0 {
          break;
        } else if writebytes == -1 {
          return totalwrite, true;
        }
        OverwriteMore(before, startpos, bytes, totalwrite, writebytes);
        WrittenMore(totalwrite, |bytes|, io, k);
        totalwrite := totalwrite + writebytes;
        k := if k < |io| then k + 1 else k;
      }
      return totalwrite, false;
    }

    /** Reset for another try: the stored position goes back to the start of the range. */
    method RemakeHandle()
      modifies this
      ensures Valid() && Stored() == 0 && size == bSize
      ensures lastResponseCode == -1 && retryCount == old(retryCount) + 1
    {
      lastResponseCode := -1;
      retryCount := retryCount + 1;
      startpos := bStartpos;
      size := bSize;
    }

    /** curl_easy_perform: hand the pieces to the callback; a short callback is a write error. */
    method Perform(a: GetAttempt) returns (outcome: Outcome)
      requires Valid() && Stored() == 0
      modifies `startpos, `size, file
      ensures Valid()
      ensures var f := StoreAll(old(file.data), bStartpos, bSize, 0, a.body);
        file.data == f.data && Stored() == f.pos && outcome == if f.stopped then Transient else a.outcome
    {
      ghost var before := file.data;
      var i := 0;
      while i < |a.body|
        invariant i <= |a.body| && Valid()
        invariant StoreAll(before, bStartpos, bSize, 0, a.body)
               == StoreAll(file.data, bStartpos, bSize, Stored(), a.body[i..])
      {
        assert a.body[i..][0] == a.body[i] && a.body[i..][1..] == a.body[i + 1..];
        var n := DownloadWriteCallback(a.body[i].bytes, a.body[i].io);
        if n != |a.body[i].bytes| {
          return Transient;
        }
        i := i + 1;
      }
      return a.outcome;
    }

    /** Try the request until it gets a final answer, at most `retries` times. */
    method RequestPerform(attempts: seq<GetAttempt>, retries: nat) returns (result: int)
      requires Valid() && Stored() == 0 && lastResponseCode == -1
      modifies this, file
      ensures Valid()
      ensures var t := TriedBy(old(file.data), bStartpos, bSize, attempts, retries);
        && file.data == t.data && Stored() == t.pos && lastResponseCode == t.code && result == t.result
        && retryCount == old(retryCount) + t.remakes
    {
      var tries := 0;
      ghost var all := TriedBy(file.data, bStartpos, bSize, attempts, retries);
      while tries < retries
        invariant tries <= retries && Valid() && Stored() == 0 && lastResponseCode == -1
        invariant retryCount == old(retryCount) + tries
        invariant var rest := if tries <= |attempts| then attempts[tries..] else [];
          var t := TriedBy(file.data, bStartpos, bSize, rest, retries - tries);
          all == t.(remakes := t.remakes + tries)
      {
        var attempt := if tries < |attempts| then attempts[tries] else Attempt([], Fatal);
        assert tries < |attempts| ==> attempts[tries..][1..] == attempts[tries + 1..];
        var outcome := Perform(attempt);
        match outcome {
          case Response(code) =>
            lastResponseCode := code;
            if 200 <= code < 300 {
              return 0;
            }
            if code == 403 {
              return -EPERM;
            } else if code == 404 {
              return -ENOENT;
            } else if code == 501 {
              return -ENOTSUP;
            } else if code != 503 {
              return -EIO;
            }
          case HttpError(code) =>
            lastResponseCode := code;
            if code == 404 {
              return -ENOENT;
            }
            if code < 500 {
              return -EIO;
            }
          case Transient =>
          case Fatal =>
            return -EIO;
        }
        RemakeHandle();
        tries := tries + 1;
      }
      return -EIO;
    }
  }

  // ---------------------------------------------------------------------
  // The Range header, and requests as a whole
  // ---------------------------------------------------------------------

  function RangeHeader(start: nat, size: nat): string
    requires 0 < size
  {
    "bytes=" + Decimal(start) + "-" + Decimal(start + size - 1)
  }

  /** An int-range of RFC 9110, section 14.1.2: first position, "-", last position, inclusive. */
  function ParseRange(h: string): Option<(int, int)> {
    if |h| < 6 || h[..6] != "bytes=" then None
    else
      match GetLine(h[6..], '-')
      case None => None
      case Some(p) =>
        match (StrToOff(p.text), StrToOff(p.rest))
        case (Ok(a), Ok(b)) => Some((a, b))
        case _ => None
  }

  /** The header asks for exactly the bytes [start, start+size). */
  lemma RangeHeaderMeaning(start: nat, size: nat)
    requires 0 < size && start + size <= LLONG_MAX
    ensures ParseRange(RangeHeader(start, size)) == Some((start, start + size - 1))
  {
    var a, b := Decimal(start), Decimal(start + size - 1);
    var h := RangeHeader(start, size);
    assert h == "bytes=" + (a + ['-'] + b);
    assert h[..6] == "bytes=" && h[6..] == a + ['-'] + b;
    assert '-' !in a;
    GetLineSplits(a, b, '-');
    DecimalReadsBack(start);
    DecimalReadsBack(start + size - 1);
  }

  predicate SmoothAt(a: GetAttempt, size: nat) { Clean(a.body, size) && Success(a.outcome) }

  /** Among the attempts allowed there is one that is answered with success, its pieces fit and the disk
      takes them; whatever failed before it was transient. */
  ghost predicate Smooth(attempts: seq<GetAttempt>, size: nat, retries: nat) {
    exists j :: 0 <= j < retries && FinalAt(attempts, j) && SmoothAt(attempts[j], size)
  }

  /** A server that answers with success only by sending the wanted bytes. */
  ghost predicate Honest(attempts: seq<GetAttempt>, wanted: seq<byte>) {
    forall a :: a in attempts && Success(a.outcome) ==> Delivered(a.body) == wanted
  }

  /** A success of an honest server leaves the wanted bytes. */
  lemma HonestSuccess(data: seq<byte>, start: nat, wanted: seq<byte>, attempts: seq<GetAttempt>, retries: nat)
    requires Honest(attempts, wanted)
    ensures var t := TriedBy(data, start, |wanted|, attempts, retries);
      t.result == 0 ==> Slice(t.data, start, |wanted|) == wanted
  {
    var t := TriedBy(data, start, |wanted|, attempts, retries);
    if t.result == 0 {
      TriedSuccess(data, start, |wanted|, attempts, retries);
      assert attempts[t.remakes] in attempts;
    }
  }

  lemma SmoothSucceeds(data: seq<byte>, start: nat, size: nat, attempts: seq<GetAttempt>, retries: nat)
    requires Smooth(attempts, size, retries)
    ensures var t := TriedBy(data, start, size, attempts, retries); t.result == 0 && 200 <= t.code < 300
  {
    var j :| 0 <= j < retries && FinalAt(attempts, j) && SmoothAt(attempts[j], size);
    TriedFinal(data, start, size, attempts, retries, j);
  }

  method GetObjectRequest(file: LocalFile, start: nat, size: nat, attempts: seq<GetAttempt>, retries: nat)
    returns (result: int)
    modifies file
    ensures var t := TriedBy(old(file.data), start, size, attempts, retries); file.data == t.data && result == t.result
    ensures SameOutside(old(file.data), file.data, start, size)
    ensures forall wanted :: |wanted| == size && Honest(attempts, wanted) && result == 0 ==>
      Slice(file.data, start, size) == wanted
    ensures Smooth(attempts, size, retries) ==> result == 0
  {
    ghost var before := file.data;
    var request := new GetRequest(file, start, size, 0);
    result := request.RequestPerform(attempts, retries);
    TriedOutside(before, start, size, attempts, retries);
    forall wanted | |wanted| == size && Honest(attempts, wanted) && result == 0
      ensures Slice(file.data, start, size) == wanted
    {
      HonestSuccess(before, start, wanted, attempts, retries);
    }
    if Smooth(attempts, size, retries) { SmoothSucceeds(before, start, size, attempts, retries); }
  }
}
