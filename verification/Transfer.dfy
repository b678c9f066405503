/** One range of an object on its way into the local file: a single request or parallel parts, and
    zeros for what lies past the object. */
module Transfers {
  import opened Numbers
  import opened LocalFiles
  import opened Requests
  import opened Downloads
  import opened ParallelGets
  import opened Answers

  const FILL_BUFFER: nat := 1024 * 32

  /** How the server answers each request, and the disk each filling with zeros. */
  datatype Network = Network(get: Server, fill: (nat, nat) -> seq<int>)

  /** A success answer carries the bytes asked for. */
  ghost predicate HonestNet(net: Network, remote: seq<byte>) { HonestServer(net.get, remote) }

  /** All transfers succeed in the end. */
  ghost predicate WorkingNet(net: Network, retries: nat) {
    && SmoothServer(net.get, retries)
    && (forall o: nat, n: nat :: Filled(n, net.fill(o, n), 0))
  }

  /** The pwrite calls from number k on fill size bytes with zeros, one buffer at a time, without an error. */
  predicate Filled(size: nat, io: seq<int>, k: nat)
    decreases |io| - k
  {
    size == 0 || |io| <= k || (0 <= io[k] && Filled(size - Min(io[k], Min(size, FILL_BUFFER)), io, k + 1))
  }

  /** A network that answers each request at once with the bytes asked for. */
  function AnsweringNet(remote: seq<byte>): Network {
    Network((round: nat, o: nat, n: nat) => [Attempt([Chunk(Wanted(remote, o, n), [])], Response(206))],
            (o: nat, n: nat) => [])
  }

  function Wanted(remote: seq<byte>, o: nat, n: nat): seq<byte> { if n == 0 then remote else Slice(remote, o, n) }

  /** It is honest and works, for every object. */
  lemma AnsweringWorks(remote: seq<byte>, retries: nat)
    requires 0 < retries
    ensures HonestNet(AnsweringNet(remote), remote) && WorkingNet(AnsweringNet(remote), retries)
  {
    var net := AnsweringNet(remote);
    forall round: nat, o: nat, n: nat ensures Delivered(net.get(round, o, n)[0].body) == Wanted(remote, o, n) {
      assert net.get(round, o, n)[0].body[1..] == [];
    }
    forall o: nat, n: nat | 0 < n ensures Smooth(net.get(0, o, n), n, retries) {
      assert FinalAt(net.get(0, o, n), 0) && SmoothAt(net.get(0, o, n)[0], n);
    }
  }

  /** A network on which the server refuses every request with a 403 answer. */
  function RefusingNet(): Network {
    Network((round: nat, o: nat, n: nat) => [Attempt([], Response(403))], (o: nat, n: nat) => [])
  }

  /** It is honest, and no single request of at least one byte succeeds. */
  lemma RefusingFails(remote: seq<byte>, range: seq<byte>, start: nat, w: Way)
    requires w.c.get == RefusingNet().get && range != [] && !InParts(w, |range|)
    ensures HonestNet(RefusingNet(), remote) && !Fetched(range, start, w)
  {
    if w.c.retries != 0 {
      assert Delivered([]) == [];
      TriedAtOnce(range, 0, |range|, w.c.get(0, start, |range|), w.c.retries);
    }
  }

  /** How an entity downloads. */
  datatype Way = Way(c: Config, m: nat, noMultipart: bool)

  predicate InParts(w: Way, size: nat) { 0 < w.m <= size && !w.noMultipart }

  /** The download of a range, given what is in the local file, reports success. */
  ghost predicate Fetched(range: seq<byte>, start: nat, w: Way) {
    if InParts(w, |range|) then !RangeRun(range, start, w.m, NewPart(w.c)).refused
    else range == [] || TriedBy(range, 0, |range|, w.c.get(0, start, |range|), w.c.retries).result == 0
  }

  /** If it does, the range is right: a single request needs nothing more for that. */
  ghost predicate WellFetched(range: seq<byte>, start: nat, w: Way, remote: seq<byte>) {
    InParts(w, |range|) ==> AllWellAnswered(range, start, w.m, w.c, remote)
  }

  /** The answers to every part of this object, in order, leave bytes that are wanted, and the last one is
      a success, has nothing more to add, or gives the part up.  This is a condition on the answers alone. */
  ghost predicate CompleteNet(net: Network, retries: nat, remote: seq<byte>) {
    SureServer(Config(net.get, retries), remote)
  }

  ghost predicate DonePart(range: seq<byte>, start: nat, c: Config, remote: seq<byte>)
    requires start + |range| <= |remote|
  {
    var e := PartRun(range, start, 0, 0, c);
    e.refused || e.range == remote[start..start + |range|]
  }

  /** A part that is not given up holds its bytes. */
  ghost predicate DoneNet(net: Network, retries: nat, remote: seq<byte>) {
    forall range, start: nat :: start + |range| <= |remote| ==> DonePart(range, start, Config(net.get, retries), remote)
  }

  /** Honest answers meet the condition if and only if no part is ever taken for done without being right,
      whatever was in the local file. */
  lemma CompleteMeans(net: Network, retries: nat, remote: seq<byte>)
    requires HonestServer(net.get, remote)
    ensures CompleteNet(net, retries, remote) <==> DoneNet(net, retries, remote)
  {
    var c := Config(net.get, retries);
    if CompleteNet(net, retries, remote) {
      forall range, start: nat | start + |range| <= |remote| ensures DonePart(range, start, c, remote) {
        SurePart(range, start, c, remote);
        PartRight(range, start, 0, 0, c, remote);
      }
    }
    if DoneNet(net, retries, remote) {
      forall o: nat, n: nat | o + n <= |remote| ensures Sure(Nothing(n), o, 0, 0, c, remote) {
        assert DonePart(Wrong(o, n, remote), o, c, remote);
        if !Sure(Nothing(n), o, 0, 0, c, remote) { UnsurePart(o, n, c, remote); }
      }
    }
  }

  /** Every request ends in a success, or in an answer after which it is asked again and of which nothing
      was stored but bytes that were wanted. */
  ghost predicate PromptNet(net: Network, retries: nat, remote: seq<byte>) {
    PromptServer(Config(net.get, retries), remote)
  }

  lemma PromptIsComplete(net: Network, retries: nat, remote: seq<byte>)
    requires PromptNet(net, retries, remote)
    ensures CompleteNet(net, retries, remote)
  {
    PromptIsSure(Config(net.get, retries), remote);
  }

  lemma {:induction false} CompleteRange(range: seq<byte>, start: nat, m: nat, net: Network, retries: nat,
                                         remote: seq<byte>)
    requires 0 < m && start + |range| <= |remote| && CompleteNet(net, retries, remote)
    requires !RangeRun(range, start, m, NewPart(Config(net.get, retries))).refused
    ensures AllWellAnswered(range, start, m, Config(net.get, retries), remote)
    decreases |range|
  {
    if range != [] {
      var n := HeadSize(range, m);
      SurePart(range[..n], start, Config(net.get, retries), remote);
      CompleteRange(range[n..], start + n, m, net, retries, remote);
    }
  }

  lemma CompleteFetch(range: seq<byte>, start: nat, w: Way, net: Network, remote: seq<byte>)
    requires w.c.get == net.get && start + |range| <= |remote|
    requires CompleteNet(net, w.c.retries, remote) && Fetched(range, start, w)
    ensures WellFetched(range, start, w, remote)
  {
    if InParts(w, |range|) { CompleteRange(range, start, w.m, net, w.c.retries, remote); }
  }

  lemma WorkingFetch(range: seq<byte>, start: nat, w: Way)
    requires SmoothServer(w.c.get, w.c.retries)
    ensures Fetched(range, start, w)
  {
    if InParts(w, |range|) {
      SmoothRange(range, start, w.m, w.c, []);
    } else if range != [] {
      SmoothSucceeds(range, 0, |range|, w.c.get(0, start, |range|), w.c.retries);
    }
  }

  /** Where everything works in the end, every part that is taken for done is right. */
  lemma WorkingIsComplete(net: Network, retries: nat, remote: seq<byte>)
    requires WorkingNet(net, retries)
    ensures CompleteNet(net, retries, remote)
  {
    SmoothIsSure(Config(net.get, retries), remote);
  }

  lemma SingleFetch(before: seq<byte>, start: nat, range: seq<byte>, attempts: seq<GetAttempt>, retries: nat,
                    result: int)
    requires start + |range| <= |before| && range == Cut(before, start, |range|)
    requires result == TriedBy(before, start, |range|, attempts, retries).result
    ensures result == TriedBy(range, 0, |range|, attempts, retries).result
  {
    SpliceCut(before, start, range);
    TriedSpliced(before, start, range, attempts, retries);
  }

  /** Download [start, start+size) of the object, by one request or in parallel parts: whether that is
      reported as a success, and whether it is one. */
  method Fetch(file: LocalFile, start: nat, size: nat, w: Way, maxParallel: nat, ghost remote: seq<byte>)
    returns (result: int)
    requires HonestServer(w.c.get, remote) && 0 < w.m && 0 < maxParallel
    requires size == 0 || start + size <= |remote|
    requires start + size <= |file.data|
    modifies file
    ensures SameOutside(old(file.data), file.data, start, size)
    ensures result == 0 <==> Fetched(Slice(old(file.data), start, size), start, w)
    ensures result == 0 && 0 < size ==>
      (WellFetched(Slice(old(file.data), start, size), start, w, remote) <==>
         Slice(file.data, start, size) == remote[start..start + size])
  {
    ghost var range := Slice(file.data, start, size);
    if w.m <= size && !w.noMultipart {
      result := ParallelGetObjectRequest(file, start, size, w.m, maxParallel, w.c);
      RangeRight(range, start, w.m, w.c, remote);
      assert Slice(file.data, start, size) == Cut(file.data, start, size);
    } else if 0 < size {
      ghost var before := file.data;
      result := GetObjectRequest(file, start, size, w.c.get(0, start, size), w.c.retries);
      SingleFetch(before, start, range, w.c.get(0, start, size), w.c.retries, result);
    } else {
      result := 0;
    }
  }

  // ---------------------------------------------------------------------
  // Zeros
  // ---------------------------------------------------------------------

  /** Each byte of the range is zero or what it was. */
  ghost predicate ZerosOrOld(before: seq<byte>, after: seq<byte>, start: nat, size: nat) {
    forall i :: start <= i < start + size && i < |after| ==> after[i] == 0 || (i < |before| && after[i] == before[i])
  }

  lemma ZerosWritten(data: seq<byte>, start: nat, size: nat, total: nat)
    requires total <= size
    ensures var after := Overwrite(data, start, Zeros(total));
      && SameOutside(data, after, start, size) && ZerosOrOld(data, after, start, size)
      && (total == size ==> Slice(after, start, size) == Zeros(size))
  {
  }

  lemma MoreZeros(data: seq<byte>, start: nat, total: nat, more: nat)
    ensures Overwrite(Overwrite(data, start, Zeros(total)), start + total, Zeros(more))
         == Overwrite(data, start, Zeros(total + more))
  {
    OverwriteTwice(data, start, Zeros(total), Zeros(more));
    assert Zeros(total) + Zeros(more) == Zeros(total + more);
  }

  /** After total of size zeros the file and the calls that are left. */
  ghost predicate Zeroed(before: seq<byte>, data: seq<byte>, start: nat, size: nat, total: nat, io: seq<int>, k: nat) {
    && total <= size && k <= |io| && data == Overwrite(before, start, Zeros(total))
    && (Filled(size, io, 0) <==> Filled(size - total, io, k))
  }

  lemma ZeroedMore(before: seq<byte>, data: seq<byte>, start: nat, size: nat, total: nat, io: seq<int>, k: nat, n: nat)
    requires Zeroed(before, data, start, size, total, io, k) && total < size
    requires k < |io| ==> 0 <= io[k]
    requires n == Min(if k < |io| then io[k] else size - total, Min(size - total, FILL_BUFFER))
    ensures Zeroed(before, Overwrite(data, start + total, Zeros(n)), start, size, total + n, io,
                   if k < |io| then k + 1 else k)
  {
    MoreZeros(before, start, total, n);
  }

  /** Write zeros over a range, a buffer at a time. */
  method FillFile(file: LocalFile, size: nat, start: nat, io: seq<int>) returns (result: int)
    modifies file
    ensures SameOutside(old(file.data), file.data, start, size)
    ensures ZerosOrOld(old(file.data), file.data, start, size)
    ensures result == 0 ==> Slice(file.data, start, size) == Zeros(size)
    ensures result == 0 <==> Filled(size, io, 0)
  {
    var total, k := 0, 0;
    ghost var before := file.data;
    while total < size
      invariant Zeroed(before, file.data, start, size, total, io, k)
      decreases size - total, |io| - k
    {
      var n := Min(FILL_BUFFER, size - total);
      var answer := if k < |io| then io[k] else n;
      ghost var data := file.data;
      var onewrote := file.Pwrite(Zeros(n), start + total, answer);
      if onewrote == -1 {
        ZerosWritten(before, start, size, total);
        return -EIO;
      }
      assert Zeros(n)[..onewrote] == Zeros(onewrote);
      ZeroedMore(before, data, start, size, total, io, k, onewrote);
      total, k := total + onewrote, if k < |io| then k + 1 else k;
    }
    ZerosWritten(before, start, size, total);
    return 0;
  }
}
