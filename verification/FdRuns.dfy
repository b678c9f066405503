/** Whole runs of client calls on one entity, against a plain byte array. */
module FdRuns {
  import opened Numbers
  import opened Text
  import opened Requests
  import opened Pages
  import opened LocalFiles
  import opened ParallelGets
  import opened Transfers
  import opened Uploads
  import opened FdEntities

  /** A client's call, with the outside world's answers.  Disk space is ample in these runs, and
      uploads work in the end; the network is honest about whatever object the server holds at the time. */
  datatype Call =
    | OpenCall(newSize: int, truncateWorks: bool)
    | ReadCall(start: nat, size: nat, nets: seq<byte> -> Network)
    | WriteCall(bytes: seq<byte>, start: nat, growWorks: bool, nets: seq<byte> -> Network, answer: int)
    | LoadCall(start: nat, size: nat, nets: seq<byte> -> Network)
    | FlushCall(up: Uploading)

  /** What comes back. */
  datatype Seen =
    | Returned(result: int)
    | Got(result: int, got: seq<byte>)
    | Wrote(result: int, written: nat)
    | Uploaded(sent: seq<byte>)

  ghost predicate HonestCall(call: Call, m: nat, retries: nat) {
    match call
    case OpenCall(newSize, _) => -1 <= newSize
    case ReadCall(_, _, nets) => forall r :: HonestNet(nets(r), r)
    case WriteCall(_, _, _, nets, _) => forall r :: HonestNet(nets(r), r)
    case LoadCall(_, _, nets) => forall r :: HonestNet(nets(r), r)
    case FlushCall(up) => AlwaysUploads(up, m, retries)
  }

  /** The answers to the parts of parallel downloads are such that none is ever taken for done without
      being right, whatever was in the local file. */
  ghost predicate CompleteCall(call: Call, retries: nat) {
    match call
    case OpenCall(_, _) => true
    case ReadCall(_, _, nets) => forall r :: CompleteNet(nets(r), retries, r)
    case WriteCall(_, _, _, nets, _) => forall r :: CompleteNet(nets(r), retries, r)
    case LoadCall(_, _, nets) => forall r :: CompleteNet(nets(r), retries, r)
    case FlushCall(_) => true
  }

  /** Every request ends in a success, or in an answer after which it is asked again and of which nothing
      was stored but bytes that were wanted. */
  ghost predicate PromptCall(call: Call, retries: nat) {
    match call
    case OpenCall(_, _) => true
    case ReadCall(_, _, nets) => forall r :: PromptNet(nets(r), retries, r)
    case WriteCall(_, _, _, nets, _) => forall r :: PromptNet(nets(r), retries, r)
    case LoadCall(_, _, nets) => forall r :: PromptNet(nets(r), retries, r)
    case FlushCall(_) => true
  }

  lemma PromptComplete(call: Call, retries: nat)
    requires PromptCall(call, retries) || WorkingCall(call, retries)
    ensures CompleteCall(call, retries)
  {
    if call.ReadCall? || call.WriteCall? || call.LoadCall? {
      forall r ensures CompleteNet(call.nets(r), retries, r) {
        if PromptCall(call, retries) {
          PromptIsComplete(call.nets(r), retries, r);
        } else {
          WorkingIsComplete(call.nets(r), retries, r);
        }
      }
    }
  }

  /** The outside world lets this call succeed. */
  ghost predicate WorkingCall(call: Call, retries: nat) {
    match call
    case OpenCall(_, truncateWorks) => truncateWorks
    case ReadCall(_, _, nets) => forall r :: WorkingNet(nets(r), retries)
    case WriteCall(bytes, _, growWorks, nets, answer) =>
      growWorks && |bytes| <= answer && forall r :: WorkingNet(nets(r), retries)
    case LoadCall(_, _, nets) => forall r :: WorkingNet(nets(r), retries)
    case FlushCall(_) => true
  }

  predicate Succeeded(call: Call, seen: Seen) {
    match call
    case OpenCall(_, _) => seen == Returned(0)
    case ReadCall(_, _, _) => seen.Got? && seen.result == 0
    case WriteCall(bytes, _, _, _, _) => seen == Wrote(0, |bytes|)
    case LoadCall(_, _, _) => seen == Returned(0)
    case FlushCall(_) => seen == Returned(0) || seen.Uploaded?
  }

  predicate IncompleteWrite(call: Call, seen: Seen) { call.WriteCall? && !Succeeded(call, seen) }

  predicate CompleteWrite(call: Call, seen: Seen) { call.WriteCall? && Succeeded(call, seen) }

  /** An open that makes a file of n bytes longer. */
  predicate Grows(call: Call, seen: Seen, n: nat) { call.OpenCall? && seen == Returned(0) && n < call.newSize }

  // ---------------------------------------------------------------------
  // The plain array
  // ---------------------------------------------------------------------

  /** The same call on a plain byte array; an upload makes it what was sent. */
  function PlainStep(plain: seq<byte>, call: Call, seen: Seen): seq<byte> {
    match (call, seen)
    case (OpenCall(n, _), Returned(r)) => if r == 0 && 0 <= n then Truncated(plain, n) else plain
    case (WriteCall(bytes, start, growWorks, _, _), Wrote(_, written)) =>
      if (|plain| < start && !growWorks) || |bytes| < written then plain
      else Overwrite(if |plain| < start then Truncated(plain, start) else plain, start, bytes[..written])
    case (FlushCall(_), Uploaded(sent)) => sent
    case _ => plain
  }

  function PlainRun(plain: seq<byte>, calls: seq<Call>, seens: seq<Seen>): seq<byte>
    requires |seens| <= |calls|
  {
    if seens == [] then plain
    else
      var k := |seens| - 1;
      PlainStep(PlainRun(plain, calls, seens[..k]), calls[k], seens[k])
  }

  /** A write failed half way, and neither a complete write nor an upload has come since. */
  predicate Doubtful(first: bool, calls: seq<Call>, seens: seq<Seen>)
    requires |seens| <= |calls|
  {
    if seens == [] then first
    else
      var k := |seens| - 1;
      if seens[k].Uploaded? || calls[k].WriteCall? then IncompleteWrite(calls[k], seens[k])
      else Doubtful(first, calls, seens[..k])
  }

  /** A write completed, and no upload has come since. */
  predicate Pending(first: bool, calls: seq<Call>, seens: seq<Seen>)
    requires |seens| <= |calls|
  {
    if seens == [] then first
    else
      var k := |seens| - 1;
      !seens[k].Uploaded? && (CompleteWrite(calls[k], seens[k]) || Pending(first, calls, seens[..k]))
  }

  /** Since the last upload no open made the file longer and every write completed. */
  predicate Steady(first: bool, plain: seq<byte>, calls: seq<Call>, seens: seq<Seen>)
    requires |seens| <= |calls|
  {
    if seens == [] then first
    else
      var k := |seens| - 1;
      seens[k].Uploaded? ||
      (&& Steady(first, plain, calls, seens[..k])
       && !Grows(calls[k], seens[k], |PlainRun(plain, calls, seens[..k])|) && !IncompleteWrite(calls[k], seens[k]))
  }

  predicate AllSucceeded(calls: seq<Call>, seens: seq<Seen>)
    requires |seens| <= |calls|
  {
    forall k :: 0 <= k < |seens| ==> Succeeded(calls[k], seens[k])
  }

  // ---------------------------------------------------------------------
  // Which bytes are loaded, and whether the file counts as modified
  // ---------------------------------------------------------------------

  /** What decides about a flush. */
  datatype Tracked = Tracked(flags: seq<bool>, orgSize: nat, dirty: bool)

  function LoadedFlags(fs: seq<bool>, start: nat, size: nat): (r: seq<bool>)
    ensures |r| == |fs|
  {
    seq(|fs|, i requires 0 <= i < |fs| => fs[i] || start <= i < WindowEnd(|fs|, start, size))
  }

  /** Zeros that are filled in past the original size clear the modify flag. */
  ghost function TrackLoad(t: Tracked, start: nat, size: nat): Tracked {
    Tracked(LoadedFlags(t.flags, start, size), t.orgSize, t.dirty && NoneMissingPast(t.flags, start, size, t.orgSize))
  }

  /** A call that succeeds; most is how much a read loads ahead. */
  ghost function TrackStep(t: Tracked, call: Call, most: nat): Tracked {
    match call
    case OpenCall(n, _) =>
      if n < 0 then t else Tracked(ResizedFlags(t.flags, n, false), Min(n, t.orgSize), t.dirty)
    case ReadCall(start, size, _) =>
      if Within(t.flags, start, size) then t else TrackLoad(t, start, Prefetched(|t.flags|, start, size, most))
    case WriteCall(bytes, start, _, _, _) =>
      Tracked(Repeat(Max(|t.flags|, start + |bytes|), true), t.orgSize,
              NoneMissingPast(t.flags, start + |bytes|, 0, t.orgSize))
    case LoadCall(start, size, _) => TrackLoad(t, start, size)
    case FlushCall(_) => if t.dirty then Tracked(t.flags, |t.flags|, false) else t
  }

  ghost function TrackRun(t: Tracked, calls: seq<Call>, k: nat, most: nat): Tracked
    requires k <= |calls|
  {
    if k == 0 then t else TrackStep(TrackRun(t, calls, k - 1, most), calls[k - 1], most)
  }

  /** A flush uploads exactly if the file is modified and not too long for an upload. */
  predicate FlushExact(seen: Seen, dirty: bool, size: nat, limit: nat) {
    if !dirty then seen == Returned(0)
    else if limit < size then seen == Returned(-ENOTSUP)
    else seen.Uploaded?
  }

  // ---------------------------------------------------------------------
  // One call
  // ---------------------------------------------------------------------

  /** The state of an entity as a value. */
  datatype Held = Held(flags: seq<bool>, data: seq<byte>, remote: seq<byte>, orgSize: nat, dirty: bool) {
    ghost predicate Good() { |flags| == |data| && orgSize <= |remote| && orgSize <= |flags| }

    ghost function Content(): (c: seq<byte>)
      requires Good()
      ensures |c| == |data|
    {
      View(flags, data, remote, orgSize)
    }

    ghost predicate Ready()
      requires Good()
    {
      dirty ==> OnlyZerosMissing(flags, data, orgSize)
    }

    ghost predicate Firm() { NoneMissingPast(flags, 0, 0, orgSize) }

    function Track(): Tracked { Tracked(flags, orgSize, dirty) }
  }

  ghost function HeldBy(e: FdEntity): Held
    requires e.Valid()
    reads e, e.file, e.pagelist
  {
    Held(e.pagelist.Loaded(), e.file.data, e.remote, e.sizeOrgmeta, e.isModify)
  }

  datatype Limits = Limits(most: nat, limit: nat)

  function LimitsOf(e: FdEntity): Limits {
    Limits(e.multipartSize * e.maxParallel, MAX_MULTIPART_CNT * e.multipartSize)
  }

  /** What a call does: to the content, to what it returns, and to what decides about a flush. */
  ghost predicate StepEffect(h: Held, h': Held, call: Call, seen: Seen, complete: bool, m: Limits) {
    && h.Good() && h'.Good() && Answers(h, h', call, seen, m)
    && |h'.data| == |PlainStep(h.Content(), call, seen)|
    && (complete ==> h'.Content() == PlainStep(h.Content(), call, seen))
    && ((if seen.Uploaded? || call.WriteCall? then !IncompleteWrite(call, seen) else h.Ready()) ==> h'.Ready())
    && (seen.Uploaded? || (h.Firm() && !Grows(call, seen, |h.data|) && !IncompleteWrite(call, seen)) ==>
          && h'.Firm()
          && (h'.dirty <==> !seen.Uploaded? && (CompleteWrite(call, seen) || h.dirty)))
    && (Succeeded(call, seen) ==> h'.Track() == TrackStep(h.Track(), call, m.most))
  }

  ghost predicate Answers(h: Held, h': Held, call: Call, seen: Seen, m: Limits)
    requires h.Good() && h'.Good()
  {
    match (call, seen)
    case (OpenCall(_, _), Returned(_)) => true
    case (ReadCall(start, size, _), Got(r, got)) => r == 0 ==> got == Slice(h'.Content(), start, size)
    case (WriteCall(_, _, _, _, _), Wrote(_, _)) => true
    case (LoadCall(_, _, _), Returned(_)) => true
    case (FlushCall(_), Returned(_)) => FlushExact(seen, h.dirty, |h.data|, m.limit)
    case (FlushCall(_), Uploaded(sent)) =>
      && FlushExact(seen, h.dirty, |h.data|, m.limit)
      && (sent == h.Content() <==> BlankLocally(h.flags, h.data, h.remote, h.orgSize))
    case _ => false
  }

  /** One call on the entity. */
  method Step(e: FdEntity, call: Call) returns (seen: Seen)
    requires e.Valid() && e.isOpen && e.Anchored() && HonestCall(call, e.multipartSize, e.retries)
    modifies e, e.file, e.pagelist
    ensures e.Valid() && e.isOpen && e.Anchored()
    ensures StepEffect(old(HeldBy(e)), HeldBy(e), call, seen, CompleteCall(call, e.retries), LimitsOf(e))
    ensures WorkingCall(call, e.retries) ==>
      Succeeded(call, seen) || (seen == Returned(-ENOTSUP) && LimitsOf(e).limit < |old(e.file.data)|)
  {
    match call {
      case OpenCall(n, works) =>
        seen := StepOpen(e, call);
      case ReadCall(start, size, nets) =>
        seen := StepRead(e, call);
      case WriteCall(bytes, start, growWorks, nets, answer) =>
        seen := StepWrite(e, call);
      case LoadCall(start, size, nets) =>
        seen := StepLoad(e, call);
      case FlushCall(up) =>
        seen := StepFlush(e, call);
    }
  }

  method StepOpen(e: FdEntity, call: Call) returns (seen: Seen)
    requires e.Valid() && e.isOpen && e.Anchored() && HonestCall(call, e.multipartSize, e.retries) && call.OpenCall?
    modifies e, e.file, e.pagelist
    ensures e.Valid() && e.isOpen && e.Anchored()
    ensures StepEffect(old(HeldBy(e)), HeldBy(e), call, seen, CompleteCall(call, e.retries), LimitsOf(e))
    ensures WorkingCall(call, e.retries) ==> Succeeded(call, seen)
  {
    ghost var h := HeldBy(e);
    var r := e.Open(None, call.newSize, call.truncateWorks);
    OpenEffect(h, HeldBy(e), call, r, LimitsOf(e));
    return Returned(r);
  }

  lemma OpenEffect(h: Held, h': Held, call: Call, r: int, m: Limits)
    requires h.Good() && h'.Good() && call.OpenCall? && -1 <= call.newSize
    requires h'.remote == h.remote && h'.dirty == h.dirty
    requires r != 0 ==> h' == h
    requires r == 0 ==>
      && h'.orgSize == ReopenedSize(h.orgSize, None, call.newSize)
      && h'.flags == (if call.newSize == -1 then h.flags else ResizedFlags(h.flags, call.newSize, false))
      && h'.Content() == (if call.newSize == -1 then h.Content()
                          else Resized(h.Content(), call.newSize, h.remote, h'.orgSize))
      && (h.Ready() ==> h'.Ready())
    ensures StepEffect(h, h', call, Returned(r), true, m)
  {
    if r == 0 && 0 <= call.newSize {
      ResizedIsTruncated(h.Content(), call.newSize, h.remote, h'.orgSize);
    }
  }

  method StepLoad(e: FdEntity, call: Call) returns (seen: Seen)
    requires e.Valid() && e.isOpen && e.Anchored() && HonestCall(call, e.multipartSize, e.retries) && call.LoadCall?
    modifies e, e.file, e.pagelist
    ensures e.Valid() && e.isOpen && e.Anchored()
    ensures StepEffect(old(HeldBy(e)), HeldBy(e), call, seen, CompleteCall(call, e.retries), LimitsOf(e))
    ensures WorkingCall(call, e.retries) ==> Succeeded(call, seen)
  {
    ghost var h, net := HeldBy(e), call.nets(e.remote);
    ghost var p := Promises(net, e.Downloading(net), e.remote, e.sizeOrgmeta);
    var r := e.Load(call.start, call.size, call.nets(e.remote), p);
    LoadStepEffect(h, HeldBy(e), call, r, p, LimitsOf(e));
    return Returned(r);
  }

  lemma LoadStepEffect(h: Held, h': Held, call: Call, r: int, p: Promise, m: Limits)
    requires h.Good() && h'.Good() && call.LoadCall? && h'.remote == h.remote && h'.orgSize == h.orgSize
    requires LoadEffect(h.flags, h.data, h.dirty, h'.flags, h'.data, h'.dirty, h.remote, h.orgSize, call.start,
                        call.size, p, r == 0)
    requires h.Ready() ==> h'.Ready()
    ensures StepEffect(h, h', call, Returned(r), p.complete, m)
  {
    WholeTail(h.flags, call.start, call.size, h.orgSize);
    if r == 0 { LoadedExactly(h.flags, h'.flags, call.start, call.size); }
  }

  lemma LoadedExactly(fs: seq<bool>, fs': seq<bool>, start: nat, size: nat)
    requires Loading(fs, fs', start, size, true)
    ensures fs' == LoadedFlags(fs, start, size)
  {
  }

  method StepRead(e: FdEntity, call: Call) returns (seen: Seen)
    requires e.Valid() && e.isOpen && e.Anchored() && HonestCall(call, e.multipartSize, e.retries) && call.ReadCall?
    modifies e, e.file, e.pagelist
    ensures e.Valid() && e.isOpen && e.Anchored()
    ensures StepEffect(old(HeldBy(e)), HeldBy(e), call, seen, CompleteCall(call, e.retries), LimitsOf(e))
    ensures WorkingCall(call, e.retries) ==> Succeeded(call, seen)
  {
    ghost var h, net := HeldBy(e), call.nets(e.remote);
    ghost var p := Promises(net, e.Downloading(net), e.remote, e.sizeOrgmeta);
    var ample := Disk(true, true, true);
    var r, got := e.Read(call.start, call.size, ample, ample, call.nets(e.remote), p);
    ReadStepEffect(h, HeldBy(e), call, r, got, p, LimitsOf(e));
    return Got(r, got);
  }

  lemma ReadStepEffect(h: Held, h': Held, call: Call, r: int, got: seq<byte>, p: Promise, m: Limits)
    requires h.Good() && h'.Good() && call.ReadCall? && h'.remote == h.remote && h'.orgSize == h.orgSize
    requires ReadEffect(h.flags, h.data, h.dirty, h'.flags, h'.data, h'.dirty, h.remote, h.orgSize, call.start,
                        call.size, Prefetched(|h.flags|, call.start, call.size, m.most), p, r == 0)
    requires Within(h.flags, call.start, call.size) ==> h'.dirty == h.dirty && h'.flags == h.flags
    requires r == 0 ==> got == Slice(h'.Content(), call.start, call.size)
    requires h.Ready() ==> h'.Ready()
    ensures StepEffect(h, h', call, Got(r, got), p.complete, m)
  {
    if r == 0 && !Within(h.flags, call.start, call.size) {
      LoadedExactly(h.flags, h'.flags, call.start, Prefetched(|h.flags|, call.start, call.size, m.most));
    }
  }

  method StepWrite(e: FdEntity, call: Call) returns (seen: Seen)
    requires e.Valid() && e.isOpen && e.Anchored() && HonestCall(call, e.multipartSize, e.retries) && call.WriteCall?
    modifies e, e.file, e.pagelist
    ensures e.Valid() && e.isOpen && e.Anchored()
    ensures StepEffect(old(HeldBy(e)), HeldBy(e), call, seen, CompleteCall(call, e.retries), LimitsOf(e))
    ensures WorkingCall(call, e.retries) ==> Succeeded(call, seen)
  {
    ghost var h, net := HeldBy(e), call.nets(e.remote);
    ghost var p := Promises(net, e.Downloading(net), e.remote, e.sizeOrgmeta);
    var ample := Disk(true, true, true);
    var r := e.Write(call.bytes, call.start, call.growWorks, ample, call.nets(e.remote), p, call.answer);
    WriteStepEffect(h, HeldBy(e), call, r.result, r.written, p, LimitsOf(e));
    return Wrote(r.result, r.written);
  }

  lemma WriteStepEffect(h: Held, h': Held, call: Call, result: int, written: nat, p: Promise, m: Limits)
    requires h.Good() && h'.Good() && call.WriteCall? && h'.remote == h.remote && h'.orgSize == h.orgSize
    requires written <= |call.bytes|
    requires !call.growWorks && |h.data| < call.start ==> result != 0 && h'.Content() == h.Content()
    requires call.growWorks || call.start <= |h.data| ==>
      Holds(Grown(h.Content(), call.start, h.remote, h.orgSize), h'.Content(), call.start, call.bytes[..written],
            p.complete)
    requires (call.growWorks || call.start <= |h.data|) && result == 0 && written == |call.bytes| ==>
      && h'.flags == Repeat(|h'.data|, true) && h'.Ready()
      && (h'.dirty <==> NoneMissingPast(h.flags, call.start + |call.bytes|, 0, h.orgSize))
    ensures StepEffect(h, h', call, Wrote(result, written), p.complete, m)
  {
    ResizedIsTruncated(h.Content(), call.start, h.remote, h.orgSize);
    WholeTail(h.flags, call.start + |call.bytes|, 0, h.orgSize);
  }

  method StepFlush(e: FdEntity, call: Call) returns (seen: Seen)
    requires e.Valid() && e.isOpen && e.Anchored() && HonestCall(call, e.multipartSize, e.retries) && call.FlushCall?
    modifies e, e.file, e.pagelist
    ensures e.Valid() && e.isOpen && e.Anchored()
    ensures StepEffect(old(HeldBy(e)), HeldBy(e), call, seen, CompleteCall(call, e.retries), LimitsOf(e))
    ensures Succeeded(call, seen) || (seen == Returned(-ENOTSUP) && LimitsOf(e).limit < |old(e.file.data)|)
  {
    ghost var h := HeldBy(e);
    var modified := e.isModify;
    var r := e.RowFlush(false, call.up);
    return if r == 0 && modified then Uploaded(e.remote) else Returned(r);
  }

  // ---------------------------------------------------------------------
  // Whole runs
  // ---------------------------------------------------------------------

  /** Step k is explained by the plain array: a read returns its bytes, an upload sends all of it, and a
      flush uploads exactly if it has to.  For the first two, no part of a download may be taken for
      done without being right. */
  ghost predicate ExplainedAt(first: Held, m: Limits, calls: seq<Call>, seens: seq<Seen>, k: nat, complete: bool)
    requires k < |seens| <= |calls| && first.Good()
  {
    var before := PlainRun(first.Content(), calls, seens[..k]);
    match (calls[k], seens[k])
    case (ReadCall(start, size, _), Got(r, got)) => complete && r == 0 ==> got == Slice(before, start, size)
    case (FlushCall(_), Uploaded(sent)) =>
      && (complete && !Doubtful(!first.Ready(), calls, seens[..k]) ==> sent == before)
      && FlushAt(first, m, calls, seens, k)
    case (FlushCall(_), Returned(_)) => FlushAt(first, m, calls, seens, k)
    case (OpenCall(_, _), Returned(_)) => true
    case (WriteCall(_, _, _, _, _), Wrote(_, _)) => true
    case (LoadCall(_, _, _), Returned(_)) => true
    case _ => false
  }

  /** When a flush uploads: in a steady stretch of the run, whenever a write has completed since the
      last upload; and as long as all calls have succeeded, exactly when the tracked flag says so. */
  ghost predicate FlushAt(first: Held, m: Limits, calls: seq<Call>, seens: seq<Seen>, k: nat)
    requires k < |seens| <= |calls| && first.Good()
  {
    var size := |PlainRun(first.Content(), calls, seens[..k])|;
    && (Steady(first.Firm(), first.Content(), calls, seens[..k]) ==>
          FlushExact(seens[k], Pending(first.dirty, calls, seens[..k]), size, m.limit))
    && (AllSucceeded(calls, seens[..k]) ==>
          FlushExact(seens[k], TrackRun(first.Track(), calls, k, m.most).dirty, size, m.limit))
  }

  /** What holds of the entity after a part of a run. */
  ghost predicate RunInv(first: Held, h: Held, m: Limits, calls: seq<Call>, seens: seq<Seen>, complete: bool) {
    && |seens| <= |calls| && first.Good() && h.Good()
    && var plain := PlainRun(first.Content(), calls, seens);
       && |h.data| == |plain| && (complete ==> h.Content() == plain)
       && (!Doubtful(!first.Ready(), calls, seens) ==> h.Ready())
       && (Steady(first.Firm(), first.Content(), calls, seens) ==>
             h.Firm() && h.dirty == Pending(first.dirty, calls, seens))
       && (AllSucceeded(calls, seens) ==> h.Track() == TrackRun(first.Track(), calls, |seens|, m.most))
  }

  lemma PlainStepLength(a: seq<byte>, b: seq<byte>, call: Call, seen: Seen)
    requires |a| == |b|
    ensures |PlainStep(a, call, seen)| == |PlainStep(b, call, seen)|
  {
  }

  /** One more step of a run. */
  lemma RunStep(first: Held, h: Held, h': Held, m: Limits, calls: seq<Call>, seens: seq<Seen>, seen: Seen,
                complete: bool)
    requires |seens| < |calls| && RunInv(first, h, m, calls, seens, complete)
    requires StepEffect(h, h', calls[|seens|], seen, complete, m)
    ensures RunInv(first, h', m, calls, seens + [seen], complete)
    ensures ExplainedAt(first, m, calls, seens + [seen], |seens|, complete)
  {
    var more := seens + [seen];
    assert more[..|seens|] == seens && more[|seens|] == seen;
    PlainStepLength(h.Content(), PlainRun(first.Content(), calls, seens), calls[|seens|], seen);
    MoreSucceeded(calls, seens, seen);
    if h.dirty && h.Ready() { ReadyIsBlank(h.flags, h.data, h.remote, h.orgSize); }
  }

  lemma MoreSucceeded(calls: seq<Call>, seens: seq<Seen>, seen: Seen)
    requires |seens| < |calls|
    ensures AllSucceeded(calls, seens + [seen]) <==> AllSucceeded(calls, seens) && Succeeded(calls[|seens|], seen)
  {
    var more := seens + [seen];
    assert more[|seens|] == seen;
    if AllSucceeded(calls, more) {
      forall k | 0 <= k < |seens| ensures Succeeded(calls[k], seens[k]) { assert more[k] == seens[k]; }
    }
  }

  lemma ReadyIsBlank(flags: seq<bool>, data: seq<byte>, remote: seq<byte>, orgSize: nat)
    requires |flags| == |data| && OnlyZerosMissing(flags, data, orgSize)
    ensures BlankLocally(flags, data, remote, orgSize)
  {
  }

  /** What was seen before stays explained. */
  lemma StillExplained(first: Held, m: Limits, calls: seq<Call>, seens: seq<Seen>, seen: Seen, k: nat, complete: bool)
    requires k < |seens| < |calls| && first.Good() && ExplainedAt(first, m, calls, seens, k, complete)
    ensures ExplainedAt(first, m, calls, seens + [seen], k, complete)
  {
    assert (seens + [seen])[..k] == seens[..k] && (seens + [seen])[k] == seens[k];
  }

  ghost predicate AllExplained(first: Held, m: Limits, calls: seq<Call>, seens: seq<Seen>, complete: bool) {
    && |seens| <= |calls| && first.Good()
    && forall k :: 0 <= k < |seens| ==> ExplainedAt(first, m, calls, seens, k, complete)
  }

  lemma MoreExplained(first: Held, m: Limits, calls: seq<Call>, seens: seq<Seen>, seen: Seen, complete: bool)
    requires |seens| < |calls| && AllExplained(first, m, calls, seens, complete)
    requires ExplainedAt(first, m, calls, seens + [seen], |seens|, complete)
    ensures AllExplained(first, m, calls, seens + [seen], complete)
  {
    forall k | 0 <= k < |seens| ensures ExplainedAt(first, m, calls, seens + [seen], k, complete) {
      StillExplained(first, m, calls, seens, seen, k, complete);
    }
  }

  /** A call succeeded, or was a flush of a file too long for an upload. */
  ghost predicate SuccessAt(plain: seq<byte>, limit: nat, calls: seq<Call>, seens: seq<Seen>, k: nat)
    requires k < |seens| <= |calls|
  {
    Succeeded(calls[k], seens[k]) || (seens[k] == Returned(-ENOTSUP) && limit < |PlainRun(plain, calls, seens[..k])|)
  }

  ghost predicate AllSuccess(plain: seq<byte>, limit: nat, calls: seq<Call>, seens: seq<Seen>) {
    |seens| <= |calls| && forall k :: 0 <= k < |seens| ==> SuccessAt(plain, limit, calls, seens, k)
  }

  lemma MoreSuccess(plain: seq<byte>, limit: nat, calls: seq<Call>, seens: seq<Seen>, seen: Seen)
    requires |seens| < |calls| && AllSuccess(plain, limit, calls, seens)
    requires Succeeded(calls[|seens|], seen) || (seen == Returned(-ENOTSUP) && limit < |PlainRun(plain, calls, seens)|)
    ensures AllSuccess(plain, limit, calls, seens + [seen])
  {
    var more := seens + [seen];
    forall k | 0 <= k <= |seens| ensures SuccessAt(plain, limit, calls, more, k) {
      assert more[..k] == seens[..k];
      if k < |seens| { assert more[k] == seens[k] && SuccessAt(plain, limit, calls, seens, k); }
      assert seens[..|seens|] == seens;
    }
  }

  ghost predicate AllHonest(calls: seq<Call>, m: nat, retries: nat) {
    forall call :: call in calls ==> HonestCall(call, m, retries)
  }

  ghost predicate AllComplete(calls: seq<Call>, retries: nat) {
    forall call :: call in calls ==> CompleteCall(call, retries)
  }

  ghost predicate AllPrompt(calls: seq<Call>, retries: nat) {
    forall call :: call in calls ==> PromptCall(call, retries)
  }

  ghost predicate AllWorking(calls: seq<Call>, retries: nat) {
    forall call :: call in calls ==> WorkingCall(call, retries)
  }

  lemma AllPromptComplete(calls: seq<Call>, retries: nat)
    requires AllPrompt(calls, retries) || AllWorking(calls, retries)
    ensures AllComplete(calls, retries)
  {
    forall call | call in calls ensures CompleteCall(call, retries) { PromptComplete(call, retries); }
  }

  /** There are networks and servers on which all this holds of reads, writes, loads and flushes: those
      that answer every request at once. */
  lemma AnsweringCalls(call: Call, m: nat, retries: nat)
    requires 0 < retries
    requires match call
      case OpenCall(n, truncateWorks) => -1 <= n && truncateWorks
      case ReadCall(_, _, nets) => nets == AnsweringNet
      case WriteCall(bytes, _, growWorks, nets, answer) => nets == AnsweringNet && growWorks && |bytes| <= answer
      case LoadCall(_, _, nets) => nets == AnsweringNet
      case FlushCall(up) => up == TakingUpload(m)
    ensures HonestCall(call, m, retries) && WorkingCall(call, retries) && CompleteCall(call, retries)
  {
    forall remote ensures HonestNet(AnsweringNet(remote), remote) && WorkingNet(AnsweringNet(remote), retries) {
      AnsweringWorks(remote, retries);
    }
    TakingWorks(m, retries);
    PromptComplete(call, retries);
  }

  /** A whole run on an open entity. */
  method Run(e: FdEntity, calls: seq<Call>) returns (seens: seq<Seen>)
    requires e.Valid() && e.isOpen && e.Anchored() && AllHonest(calls, e.multipartSize, e.retries)
    modifies e, e.file, e.pagelist
    ensures |seens| == |calls| && e.Valid() && e.isOpen && e.Anchored()
    ensures AllComplete(calls, e.retries) ==> e.Content() == PlainRun(old(e.Content()), calls, seens)
    ensures AllExplained(old(HeldBy(e)), LimitsOf(e), calls, seens, AllComplete(calls, e.retries))
    ensures AllWorking(calls, e.retries) ==> AllSuccess(old(e.Content()), LimitsOf(e).limit, calls, seens)
  {
    ghost var first, complete, working := HeldBy(e), AllComplete(calls, e.retries), AllWorking(calls, e.retries);
    seens := [];
    while |seens| < |calls|
      invariant |seens| <= |calls| && e.Valid() && e.isOpen && e.Anchored()
      invariant RunInv(first, HeldBy(e), LimitsOf(e), calls, seens, complete)
      invariant AllExplained(first, LimitsOf(e), calls, seens, complete)
      invariant working ==> AllSuccess(first.Content(), LimitsOf(e).limit, calls, seens)
    {
      ghost var h := HeldBy(e);
      var seen := Step(e, calls[|seens|]);
      RunStep(first, h, HeldBy(e), LimitsOf(e), calls, seens, seen, complete);
      MoreExplained(first, LimitsOf(e), calls, seens, seen, complete);
      if working { MoreSuccess(first.Content(), LimitsOf(e).limit, calls, seens, seen); }
      seens := seens + [seen];
    }
  }

  /** An entity after a first open of an object with its own size. */
  ghost function Fresh(remote: seq<byte>): (h: Held)
    ensures h.Good() && h.Content() == remote && h.Ready() && h.Firm() && !h.dirty
  {
    assert Blank(|remote|, remote, |remote|) == remote;
    NothingLoadedView(Zeros(|remote|), remote, |remote|);
    Held(Repeat(|remote|, false), Zeros(|remote|), remote, |remote|, false)
  }

  /** From a first open of an object with its own size, everything a client reads or flushes is what a
      plain byte array that started as the object would hold, if the answers to the parts of parallel
      downloads are complete, as they are where every request is answered well or everything works; a flush
      uploads in the cases given by FlushAt; and where the outside world works, every call succeeds. */
  method OpenAndRun(remote: seq<byte>, multipartSize: nat, maxParallel: nat, noMultipart: bool, retries: nat,
                    calls: seq<Call>)
    returns (e: FdEntity, seens: seq<Seen>)
    requires 0 < multipartSize && 0 < maxParallel && AllHonest(calls, multipartSize, retries)
    ensures |seens| == |calls| && e.Valid() && e.isOpen
    ensures AllPrompt(calls, retries) || AllWorking(calls, retries) ==> AllComplete(calls, retries)
    ensures AllComplete(calls, retries) ==> e.Content() == PlainRun(remote, calls, seens)
    ensures var m := Limits(multipartSize * maxParallel, MAX_MULTIPART_CNT * multipartSize);
      && AllExplained(Fresh(remote), m, calls, seens, AllComplete(calls, retries))
      && (AllWorking(calls, retries) ==> AllSuccess(remote, m.limit, calls, seens))
  {
    e := new FdEntity("/object", multipartSize, maxParallel, noMultipart, retries, remote);
    var r := e.Open(Some(|remote|), |remote|, true);
    assert HeldBy(e) == Fresh(remote);
    seens := Run(e, calls);
    if AllPrompt(calls, retries) || AllWorking(calls, retries) { AllPromptComplete(calls, retries); }
  }

  /** In a run without an open that makes the file longer, where every write completes, a flush uploads
      exactly if a write has come since the last upload. */
  lemma {:induction false} SteadyRuns(plain: seq<byte>, calls: seq<Call>, seens: seq<Seen>)
    requires |seens| <= |calls|
    requires forall k :: 0 <= k < |seens| ==>
      !Grows(calls[k], seens[k], |PlainRun(plain, calls, seens[..k])|) && !IncompleteWrite(calls[k], seens[k])
    ensures Steady(true, plain, calls, seens) && !Doubtful(false, calls, seens)
    ensures Pending(false, calls, seens)
       <==> exists k :: 0 <= k < |seens| && calls[k].WriteCall? && NoUploadFrom(seens, k)
  {
    if seens != [] {
      var n := |seens| - 1;
      var front := seens[..n];
      assert forall k :: 0 <= k < n ==> front[..k] == seens[..k] && front[k] == seens[k];
      SteadyRuns(plain, calls, front);
      LastUpload(calls, seens);
    }
  }

  predicate NoUploadFrom(seens: seq<Seen>, k: nat) { forall j :: k <= j < |seens| ==> !seens[j].Uploaded? }

  lemma LastUpload(calls: seq<Call>, seens: seq<Seen>)
    requires 0 < |seens| <= |calls|
    ensures var n := |seens| - 1;
      (exists k :: 0 <= k < |seens| && calls[k].WriteCall? && NoUploadFrom(seens, k))
      == (!seens[n].Uploaded? &&
          (calls[n].WriteCall? || exists k :: 0 <= k < n && calls[k].WriteCall? && NoUploadFrom(seens[..n], k)))
  {
    var n := |seens| - 1;
    var front := seens[..n];
    if k :| 0 <= k < |seens| && calls[k].WriteCall? && NoUploadFrom(seens, k) {
      assert k < n ==> NoUploadFrom(front, k);
    }
    if !seens[n].Uploaded? {
      if calls[n].WriteCall? { assert NoUploadFrom(seens, n); }
      if k :| 0 <= k < n && calls[k].WriteCall? && NoUploadFrom(front, k) {
        assert forall j :: k <= j < n ==> front[j] == seens[j];
        assert NoUploadFrom(seens, k);
      }
    }
  }

  // ---------------------------------------------------------------------
  // Short runs, two of which lose a write
  // ---------------------------------------------------------------------

  /** A complete write followed by a flush: the new content is sent if and only if no byte that was
      missing behind the written area lies past the original size; otherwise loading the zeros there
      clears the modify flag and the flush reports success without sending anything. */
  method WriteThenFlush(e: FdEntity, bytes: seq<byte>, start: nat, net: Network, answer: int, up: Uploading)
    returns (wrote: WriteResult, flushed: int)
    requires e.Valid() && e.isOpen && HonestNet(net, e.remote) && AlwaysUploads(up, e.multipartSize, e.retries)
    requires |e.file.data| <= MAX_MULTIPART_CNT * e.multipartSize
    requires start + |bytes| <= MAX_MULTIPART_CNT * e.multipartSize
    modifies e, e.file, e.pagelist
    ensures e.Valid() && e.isOpen
    ensures WorkingNet(net, e.retries) && |bytes| <= answer ==> wrote == Done(0, |bytes|)
    ensures wrote == Done(0, |bytes|) ==> flushed == 0 && Slice(e.Content(), start, |bytes|) == bytes
    ensures wrote == Done(0, |bytes|) ==>
      if NoneMissingPast(old(e.pagelist.Loaded()), start + |bytes|, 0, old(e.sizeOrgmeta))
      then e.remote == e.Content() else e.remote == old(e.remote)
  {
    flushed := 0;
    ghost var p := Promises(net, e.Downloading(net), e.remote, e.sizeOrgmeta);
    wrote := e.Write(bytes, start, true, Disk(true, true, true), net, p, answer);
    if wrote == Done(0, |bytes|) {
      assert bytes[..|bytes|] == bytes;
      flushed := e.RowFlush(false, up);
    }
  }

  lemma FirstByte(c: seq<byte>, b: byte)
    requires Slice(c, 0, 1) == [b]
    ensures 0 < |c| && c[0] == b
  {
    assert Slice(c, 0, 1)[0] == b;
  }

  /** An object, opened for the first time with its own size. */
  method OpenWhole(remote: seq<byte>, m: nat) returns (e: FdEntity)
    requires 0 < m
    ensures fresh(e) && fresh(e.file) && fresh(e.pagelist) && e.Valid() && e.isOpen && !e.isModify
    ensures e.remote == remote && e.sizeOrgmeta == |remote| && e.Content() == remote
    ensures e.retries == 5 && e.multipartSize == m && !e.noMultipart
    ensures e.pagelist.Loaded() == Repeat(|remote|, false) && e.file.data == Zeros(|remote|)
  {
    e := new FdEntity("/object", m, 5, false, 5, remote);
    var r := e.Open(Some(|remote|), |remote|, true);
    assert Blank(|remote|, remote, |remote|) == remote;
  }

  /** An object [1, 2], opened and made longer by two bytes. */
  method OpenLonger() returns (e: FdEntity)
    ensures fresh(e) && fresh(e.file) && fresh(e.pagelist) && e.Valid() && e.isOpen
    ensures e.remote == [1, 2] && e.retries == 5
    ensures e.sizeOrgmeta == 2 && e.pagelist.Loaded() == Repeat(4, false) && e.multipartSize == 10 * 1024 * 1024
  {
    e := OpenWhole([1, 2], 10 * 1024 * 1024);
    var r := e.Open(Some(2), 4, true);
  }

  /** A write that is lost: 9 is written at the front of such a file, and the flush sends nothing. */
  method LostUpdate(net: Network) returns (e: FdEntity, wrote: WriteResult, flushed: int)
    requires HonestNet(net, [1, 2])
    ensures e.Valid() && e.isOpen
    ensures WorkingNet(net, 5) ==> wrote == Done(0, 1)
    ensures wrote == Done(0, 1) ==> flushed == 0 && e.remote == [1, 2] && 0 < |e.Content()| && e.Content()[0] == 9
  {
    e := OpenLonger();
    assert !NoneMissingPast(e.pagelist.Loaded(), 1, 0, 2) by { assert !e.pagelist.Loaded()[3]; }
    TakingWorks(e.multipartSize, 5);
    wrote, flushed := WriteThenFlush(e, [9], 0, net, 1, TakingUpload(e.multipartSize));
    if wrote == Done(0, 1) { FirstByte(e.Content(), 9); }
  }

  /** A write is lost as well if the file is made longer after it and the new bytes are loaded. */
  method LostByLoad(net: Network) returns (e: FdEntity, wrote: WriteResult, loaded: int, flushed: int)
    requires HonestNet(net, [1, 2])
    ensures e.Valid() && e.isOpen
    ensures WorkingNet(net, 5) ==> wrote == Done(0, 1) && loaded == 0
    ensures wrote == Done(0, 1) && loaded == 0 ==>
      flushed == 0 && e.remote == [1, 2] && 0 < |e.Content()| && e.Content()[0] == 9
  {
    e := OpenWhole([1, 2], 10 * 1024 * 1024);
    ghost var p := Promises(net, e.Downloading(net), e.remote, e.sizeOrgmeta);
    wrote := e.Write([9], 0, true, Disk(true, true, true), net, p, 1);
    loaded, flushed := 0, 0;
    if wrote == Done(0, 1) {
      assert [9][..1] == [9];
      FirstByte(e.Content(), 9);
      var r := e.Open(Some(2), 4, true);
      assert !e.pagelist.Loaded()[2] && e.pagelist.Loaded()[0];
      loaded := e.Load(2, 2, net, p);
      if loaded == 0 {
        flushed := e.RowFlush(false, TakingUpload(e.multipartSize));
      }
    }
  }

  /** Nobody answers: loading a file of at least one part reports success, and every byte counts as
      loaded, but nothing has come. */
  method LoadUnanswered(remote: seq<byte>, m: nat, net: Network) returns (e: FdEntity, loaded: int)
    requires 0 < m <= |remote| && remote != Zeros(|remote|)
    requires HonestNet(net, remote) && SilentServer(net.get, 5)
    ensures e.Valid() && e.isOpen && loaded == 0
    ensures e.pagelist.Loaded() == Repeat(|remote|, true) && e.Content() != e.remote && e.remote == remote
  {
    e := OpenWhole(remote, m);
    ghost var p := Promises(net, e.Downloading(net), e.remote, e.sizeOrgmeta);
    ghost var fs := e.pagelist.Loaded();
    SilentLoad(remote, e.Downloading(net), net, p);
    loaded := e.Load(0, |remote|, net, p);
    LoadedExactly(fs, e.pagelist.Loaded(), 0, |remote|);
  }

  lemma SilentLoad(remote: seq<byte>, w: Way, net: Network, p: Promise)
    requires Keeps(p, net, w, remote, |remote|) && 0 < w.m <= |remote| && !w.noMultipart && remote != Zeros(|remote|)
    requires SilentServer(w.c.get, w.c.retries)
    ensures var fs, data := Repeat(|remote|, false), Zeros(|remote|);
      LoadDone(fs, data, 0, |remote|, p.done) && !LoadRight(fs, data, 0, |remote|, p.right)
  {
    var n := |remote|;
    var fs, data, run := Repeat(n, false), Zeros(n), Page(0, n, false);
    OnlyRun(fs);
    SilentRun(data, run, w, net, remote);
    assert p.done(data, run) == RunDone(data, run, n, w, net);
    assert p.right(data, run) == RunRight(data, run, n, w, remote);
    forall runs | IsUnloadedRuns(runs, fs, 0, n) ensures runs == [run] { UnloadedRunsUnique(runs, [run], fs, 0, n); }
    assert !FirstMeet(data, [run], 1, p.right) by { assert !p.right(data, [run][0]); }
  }

  lemma OnlyRun(fs: seq<bool>)
    requires fs == Repeat(|fs|, false) && fs != []
    ensures IsUnloadedRuns([Page(0, |fs|, false)], fs, 0, |fs|)
  {
    var runs := [Page(0, |fs|, false)];
    forall i | 0 <= i < |fs| ensures InRun(runs, i) { assert runs[0].offset <= i < runs[0].Next(); }
  }

  lemma SilentRun(data: seq<byte>, run: Page, w: Way, net: Network, remote: seq<byte>)
    requires data == Zeros(|remote|) != remote && run == Page(0, |remote|, false)
    requires 0 < w.m <= |remote| && !w.noMultipart
    requires SilentServer(w.c.get, w.c.retries) && HonestServer(w.c.get, remote)
    ensures RunDone(data, run, |remote|, w, net) && !RunRight(data, run, |remote|, w, remote)
  {
    assert Slice(data, 0, Need(run, |remote|)) == data && remote[0..|remote|] == remote;
    SilentRange(data, 0, w.m, w.c);
    RangeRight(data, 0, w.m, w.c, remote);
  }

  /** What an open with a new size leaves of flags and local file, for a first open and for a further one. */
  ghost function OpenedFlags(e: FdEntity, size: nat): seq<bool>
    requires e.Valid()
    reads e, e.file, e.pagelist
  {
    if e.isOpen then ResizedFlags(e.pagelist.Loaded(), size, false) else Repeat(size, false)
  }

  function OpenedData(e: FdEntity, size: nat): (data: seq<byte>)
    reads e, e.file
    ensures |data| == size
  {
    if e.isOpen then Truncated(e.file.data, size) else Zeros(size)
  }

  function OpenedOrgSize(e: FdEntity): nat
    reads e
  {
    if e.isOpen then e.sizeOrgmeta else |e.remote|
  }

  /** The object as a client sees it. */
  ghost function SeenBefore(e: FdEntity): seq<byte>
    requires e.Valid()
    reads e, e.file, e.pagelist
  {
    if e.isOpen then e.Content() else e.remote
  }

  /** The truncation gets as far as its upload. */
  ghost predicate TruncateLoads(e: FdEntity, size: nat, truncateWorks: bool, p: Promise)
    requires e.Valid()
    reads e, e.file, e.pagelist
  {
    && (truncateWorks || (e.isOpen && |e.file.data| == size))
    && LoadDone(OpenedFlags(e, size), OpenedData(e, size), 0, size, p.done)
    && size <= MAX_MULTIPART_CNT * e.multipartSize
  }

  ghost predicate UploadWorks(e: FdEntity, size: nat, up: Uploading) {
    SmoothUpload(up, size, e.multipartSize, e.noMultipart, e.retries)
  }

  /** The first step of a truncation. */
  method OpenCut(e: FdEntity, size: nat, truncateWorks: bool) returns (result: int)
    requires e.Valid()
    modifies e, e.file, e.pagelist
    ensures e.Valid() && e.remote == old(e.remote) && (e.isOpen <==> old(e.isOpen) || truncateWorks)
    ensures result == 0 <==> truncateWorks || old(e.isOpen && |e.file.data| == size)
    ensures e.isOpen ==> e.sizeOrgmeta == old(OpenedOrgSize(e))
    ensures result == 0 ==>
      && e.isOpen && e.pagelist.Loaded() == old(OpenedFlags(e, size)) && e.file.data == old(OpenedData(e, size))
      && ((old(e.isOpen) ==> old(e.Anchored())) ==> e.Content() == Truncated(old(SeenBefore(e)), size))
  {
    ghost var c := SeenBefore(e);
    result := e.Open(Some(|e.remote|), size, truncateWorks);
    OpenedContent(c, size, e.remote, e.sizeOrgmeta);
  }

  /** truncate(2): open with the new size, load what is left, and upload.  The entity may be open already
      or be opened here for the first time. */
  method Truncate(e: FdEntity, size: nat, truncateWorks: bool, net: Network, ghost p: Promise, up: Uploading)
    returns (result: int)
    requires e.Valid() && Proper(up)
    requires Keeps(p, net, e.Downloading(net), e.remote, OpenedOrgSize(e))
    modifies e, e.file, e.pagelist
    // when it succeeds
    ensures result == 0 ==> old(TruncateLoads(e, size, truncateWorks, p))
    ensures old(TruncateLoads(e, size, truncateWorks, p)) && UploadWorks(e, size, up) ==> result == 0
    ensures p.working && size <= MAX_MULTIPART_CNT * e.multipartSize && UploadWorks(e, size, up) ==>
      result == 0 || !truncateWorks
    // success
    ensures result == 0 ==>
      && e.Valid() && e.isOpen && e.Anchored()
      && e.remote == e.Content() && |e.remote| == size && !e.isModify
    ensures result == 0 && p.complete && (old(e.isOpen) ==> old(e.Anchored())) ==>
      e.remote == Truncated(old(SeenBefore(e)), size)
    // failure
    ensures e.isOpen <==> old(e.isOpen) || truncateWorks
    ensures UploadWorks(e, size, up) ==> e.Valid()
    ensures UploadWorks(e, size, up) && result != 0 ==>
      && e.remote == old(e.remote) && (e.isOpen ==> e.sizeOrgmeta == old(OpenedOrgSize(e)))
      && (truncateWorks ==> |e.Content()| == size)
  {
    result := OpenCut(e, size, truncateWorks);
    if result != 0 {
      return -EIO;
    }
    result := e.Load(0, size, net, p);
    if result != 0 {
      return;
    }
    result := e.RowFlush(true, up);
  }

  lemma OpenedContent(c: seq<byte>, size: nat, remote: seq<byte>, orgSize: nat)
    requires orgSize <= |remote|
    ensures orgSize <= |c| ==> Resized(c, size, remote, orgSize) == Truncated(c, size)
    ensures Blank(size, remote, |remote|) == Truncated(remote, size)
  {
    ResizedIsTruncated(c, size, remote, orgSize);
  }

  /** A truncation whose load fails has cut the file but not the original size: if the file is made
      longer again, the byte cut off shows up once more instead of a zero.  It does fail where the server
      refuses every request. */
  method StaleBytes(net: Network) returns (e: FdEntity, cut: int)
    requires HonestNet(net, [1, 2])
    ensures e.Valid() && e.isOpen
    ensures cut != 0 ==> |e.Content()| == 2 && e.Content()[1] == 2
    ensures net.get == RefusingNet().get ==> cut != 0
  {
    e := OpenWhole([1, 2], 10 * 1024 * 1024);
    ghost var p := Promises(net, e.Downloading(net), e.remote, e.sizeOrgmeta);
    if net.get == RefusingNet().get {
      RefusedLoad([1, 2], OpenedFlags(e, 1), OpenedData(e, 1), e.Downloading(net), net, p);
    }
    TakingWorks(e.multipartSize, 5);
    cut := Truncate(e, 1, true, net, p, TakingUpload(e.multipartSize));
    if cut != 0 {
      ghost var c := e.Content();
      var r := e.Open(Some(2), 2, true);
      assert Resized(c, 2, [1, 2], 2)[1] == Blank(2, [1, 2], 2)[1] == 2;
    }
  }

  lemma RefusedLoad(remote: seq<byte>, fs: seq<bool>, data: seq<byte>, w: Way, net: Network, p: Promise)
    requires Keeps(p, net, w, remote, |remote|) && net.get == RefusingNet().get
    requires 0 < |fs| == |data| <= |remote| && fs == Repeat(|fs|, false) && !InParts(w, |fs|)
    ensures !LoadDone(fs, data, 0, |fs|, p.done)
  {
    var run := Page(0, |fs|, false);
    OnlyRun(fs);
    RefusingFails(remote, Slice(data, 0, |fs|), 0, w);
    assert Need(run, |remote|) == |fs| && Slice(data, 0, |fs|) == data;
    assert p.done(data, run) == RunDone(data, run, |remote|, w, net);
    assert !FirstMeet(data, [run], 1, p.done) by { assert !p.done(data, [run][0]); }
  }

  /** The losses above do happen: two writes that are complete, on a network that answers every request at
      once, and that no flush sends; and a byte that shows up again where the server refuses every request. */
  method Losses() returns (written: FdEntity, flushed: int, loaded: FdEntity, flushed': int, cut: FdEntity)
    ensures written.Valid() && written.isOpen && loaded.Valid() && loaded.isOpen && cut.Valid() && cut.isOpen
    ensures flushed == 0 && written.remote == [1, 2] && 0 < |written.Content()| && written.Content()[0] == 9
    ensures flushed' == 0 && loaded.remote == [1, 2] && 0 < |loaded.Content()| && loaded.Content()[0] == 9
    ensures |cut.Content()| == 2 && cut.Content()[1] == 2
  {
    AnsweringWorks([1, 2], 5);
    var wrote, r;
    written, wrote, flushed := LostUpdate(AnsweringNet([1, 2]));
    loaded, wrote, r, flushed' := LostByLoad(AnsweringNet([1, 2]));
    assert HonestNet(RefusingNet(), [1, 2]);
    cut, r := StaleBytes(RefusingNet());
  }
}
