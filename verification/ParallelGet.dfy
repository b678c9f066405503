/** Downloading a range in parallel parts: groups of requests, rounds of retries within a group, and
    what is in the file when the whole call reports success. */
module ParallelGets {
  import opened Numbers
  import opened LocalFiles
  import opened Requests
  import opened Text
  import opened Downloads

  /** How the server answers the request for a range (size 0 asks for the whole object) in a round. */
  type Server = (nat, nat, nat) -> seq<GetAttempt>

  datatype Config = Config(get: Server, retries: nat)

  /** A queued request; num is its place within the group. */
  datatype Part = Part(num: nat, start: nat, size: nat, retryCount: nat) {
    function End(): nat { start + size }
  }

  /** A request that is performed: its last response code, the bytes it stored, its retry count. */
  datatype Asked = Asked(part: Part, code: int, pos: nat, retryCount: nat)

  // ---------------------------------------------------------------------
  // The end of one part
  // ---------------------------------------------------------------------

  /** What lies in the range of a part at its end; refused means that it was given up with an error. */
  datatype PartEnd = PartEnd(range: seq<byte>, refused: bool)

  function Prefixed(front: seq<byte>, e: PartEnd): PartEnd { PartEnd(front + e.range, e.refused) }

  function TriesLeft(retryCount: nat, retries: nat): nat {
    if retryCount <= retries then retries + 1 - retryCount else 0
  }

  /** The request for a part, performed on the bytes of its range. */
  function Performed(range: seq<byte>, start: nat, round: nat, c: Config): (t: Tried)
    ensures |t.data| == |range| && t.pos <= |range|
  {
    TriedOutside(range, 0, |range|, c.get(round, start, |range|), c.retries);
    TriedBy(range, 0, |range|, c.get(round, start, |range|), c.retries)
  }

  /** A part from its request in some round to its end. */
  function PartRun(range: seq<byte>, start: nat, retryCount: nat, round: nat, c: Config): (e: PartEnd)
    ensures |e.range| == |range|
    decreases TriesLeft(retryCount, c.retries), 1
  {
    var t := Performed(range, start, round, c);
    PartRead(t.data, start, t.code, t.pos, retryCount + t.remakes, round, c)
  }

  /** A part from reading its answer on: dropped, given up, or asked for again from where it stopped. */
  function PartRead(range: seq<byte>, start: nat, code: int, pos: nat, retryCount: nat, round: nat,
                    c: Config): (e: PartEnd)
    requires pos <= |range|
    ensures |e.range| == |range|
    decreases TriesLeft(retryCount, c.retries), 0
  {
    if !Repeated(code) then PartEnd(range, false)
    else if c.retries <= retryCount then PartEnd(range, true)
    else Prefixed(range[..pos], PartRun(range[pos..], start + pos, retryCount + 1, round + 1, c))
  }

  // ---------------------------------------------------------------------
  // When a part is right
  // ---------------------------------------------------------------------

  /** A success answer carries the bytes asked for. */
  ghost predicate HonestServer(get: Server, remote: seq<byte>) {
    forall round: nat, o: nat, n: nat :: o + n <= |remote| ==>
      Honest(get(round, o, n), if n == 0 then remote else remote[o..o + n])
  }

  /** The answers to a part, in order: each refused one left bytes that were wanted, and the last one
      is a success, or what lies in the rest of the range is right without one. */
  ghost predicate WellAnswered(range: seq<byte>, start: nat, retryCount: nat, round: nat, c: Config, remote: seq<byte>)
    requires start + |range| <= |remote|
    decreases TriesLeft(retryCount, c.retries), 1
  {
    var t := Performed(range, start, round, c);
    t.result == 0 || WellRead(t.data, start, t.code, t.pos, retryCount + t.remakes, round, c, remote)
  }

  ghost predicate WellRead(range: seq<byte>, start: nat, code: int, pos: nat, retryCount: nat, round: nat, c: Config,
                           remote: seq<byte>)
    requires pos <= |range| && start + |range| <= |remote|
    decreases TriesLeft(retryCount, c.retries), 0
  {
    if !Repeated(code) then range == remote[start..start + |range|]
    else
      && retryCount < c.retries && range[..pos] == remote[start..start + pos]
      && WellAnswered(range[pos..], start + pos, retryCount + 1, round + 1, c, remote)
  }

  lemma FrontAndRest(a: seq<byte>, b: seq<byte>, remote: seq<byte>, start: nat)
    requires start + |a| + |b| <= |remote|
    ensures a + b == remote[start..start + |a + b|]
       <==> a == remote[start..start + |a|] && b == remote[start + |a|..start + |a| + |b|]
  {
    var wanted := remote[start..start + |a + b|];
    assert wanted[..|a|] == remote[start..start + |a|] && wanted[|a|..] == remote[start + |a|..start + |a| + |b|];
    assert wanted == wanted[..|a|] + wanted[|a|..];
    if a + b == wanted {
      assert (a + b)[..|a|] == a && (a + b)[|a|..] == b;
    }
  }

  /** A success leaves the right bytes. */
  lemma SuccessIsRight(range: seq<byte>, start: nat, round: nat, c: Config, remote: seq<byte>)
    requires start + |range| <= |remote| && HonestServer(c.get, remote)
    ensures var t := Performed(range, start, round, c);
      t.result == 0 ==> t.data == remote[start..start + |range|] && !Repeated(t.code)
  {
    var t := Performed(range, start, round, c);
    if t.result == 0 {
      TriedSuccess(range, 0, |range|, c.get(round, start, |range|), c.retries);
      if range != [] {
        HonestSuccess(range, 0, remote[start..start + |range|], c.get(round, start, |range|), c.retries);
        assert Slice(t.data, 0, |range|) == t.data;
      }
    }
  }

  /** If this end of a range was not given up, it is right exactly if it is good. */
  ghost predicate Decided(e: PartEnd, good: bool, remote: seq<byte>, start: nat, size: nat) {
    && start + size <= |remote| && |e.range| == size
    && (!e.refused ==> (e.range == remote[start..start + size] <==> good))
  }

  lemma FrontDecide(front: seq<byte>, rest: PartEnd, good: bool, remote: seq<byte>, start: nat, at: nat, size: nat)
    requires at == start + |front| && |front| <= size && Decided(rest, good, remote, at, size - |front|)
    ensures Decided(Prefixed(front, rest), front == remote[start..at] && good, remote, start, size)
  {
    FrontAndRest(front, rest.range, remote, start);
  }

  /** With an honest server, a part that is not given up is right exactly if it was well answered. */
  lemma {:induction false} PartRight(range: seq<byte>, start: nat, retryCount: nat, round: nat, c: Config,
                                     remote: seq<byte>)
    requires start + |range| <= |remote| && HonestServer(c.get, remote)
    ensures Decided(PartRun(range, start, retryCount, round, c),
                    WellAnswered(range, start, retryCount, round, c, remote), remote, start, |range|)
    decreases TriesLeft(retryCount, c.retries), 1
  {
    var t := Performed(range, start, round, c);
    SuccessIsRight(range, start, round, c, remote);
    ReadRight(t.data, start, t.code, t.pos, retryCount + t.remakes, round, c, remote);
  }

  lemma {:induction false} ReadRight(range: seq<byte>, start: nat, code: int, pos: nat, retryCount: nat, round: nat,
                                     c: Config,
                                     remote: seq<byte>)
    requires pos <= |range| && start + |range| <= |remote| && HonestServer(c.get, remote)
    ensures Decided(PartRead(range, start, code, pos, retryCount, round, c),
                    WellRead(range, start, code, pos, retryCount, round, c, remote), remote, start, |range|)
    decreases TriesLeft(retryCount, c.retries), 0
  {
    if Repeated(code) && retryCount < c.retries {
      PartRight(range[pos..], start + pos, retryCount + 1, round + 1, c, remote);
      FrontDecide(range[..pos], PartRun(range[pos..], start + pos, retryCount + 1, round + 1, c),
                  WellAnswered(range[pos..], start + pos, retryCount + 1, round + 1, c, remote),
                  remote, start, start + pos, |range|);
    }
  }

  /** Nobody answers: every try times out before a byte arrives.  The part counts as done, with what
      was in the file before, whatever that was. */
  lemma Unanswered(range: seq<byte>, start: nat, retryCount: nat, round: nat, c: Config)
    requires c.retries <= |c.get(round, start, |range|)|
    requires forall a :: a in c.get(round, start, |range|) ==> a == Attempt([], Transient)
    ensures PartRun(range, start, retryCount, round, c) == PartEnd(range, false)
  {
    TimedOut(range, c.get(round, start, |range|), c.retries);
  }

  lemma {:induction false} TimedOut(range: seq<byte>, attempts: seq<GetAttempt>, left: nat)
    requires left <= |attempts| && forall a :: a in attempts ==> a == Attempt([], Transient)
    ensures TriedBy(range, 0, |range|, attempts, left) == Tried(range, 0, -1, -EIO, left)
    decreases left
  {
    if left != 0 {
      assert attempts[0] in attempts;
      assert forall a :: a in attempts[1..] ==> a in attempts;
      TimedOut(range, attempts[1..], left - 1);
    }
  }

  /** The same for an object that is no longer there: the 404 page takes the place of the part. */
  lemma NotFound(range: seq<byte>, start: nat, retryCount: nat, round: nat, c: Config, page: seq<byte>)
    requires 0 < c.retries && |page| <= |range|
    requires c.get(round, start, |range|) == [Attempt([Chunk(page, [])], Response(404))]
    ensures PartRun(range, start, retryCount, round, c) == PartEnd(Overwrite(range, 0, page), false)
  {
    var body := [Chunk(page, [])];
    assert Delivered(body[1..]) == [] && Delivered(body) == page + [] == page;
    TriedAtOnce(range, 0, |range|, c.get(round, start, |range|), c.retries);
  }

  /** A final error answer leaves its body at the front of the part, and the position behind it. */
  lemma FailureLeaves(range: seq<byte>, start: nat, round: nat, c: Config, j: nat)
    requires j < c.retries && FinalAt(c.get(round, start, |range|), j)
    requires Clean(c.get(round, start, |range|)[j].body, |range|)
    ensures var t, last := Performed(range, start, round, c), c.get(round, start, |range|)[j];
      && t.pos == |Delivered(last.body)| && t.data[..t.pos] == Delivered(last.body)
      && t.code == CodeOf(last.outcome) && t.result == ResultOf(last.outcome) && t.remakes == j
  {
    TriedFinal(range, 0, |range|, c.get(round, start, |range|), c.retries, j);
  }

  /** If then the request for the rest succeeds, the part counts as done, with those bytes at its
      front; it is right if and only if they are. */
  lemma RetryAfterFailure(range: seq<byte>, start: nat, retryCount: nat, round: nat, c: Config, remote: seq<byte>,
                          t: Tried, left: seq<byte>, rest: Tried)
    requires start + |range| <= |remote| && HonestServer(c.get, remote)
    requires t == Performed(range, start, round, c) && Repeated(t.code) && retryCount + t.remakes < c.retries
    requires left == t.data[..t.pos]
    requires rest == Performed(t.data[t.pos..], start + t.pos, round + 1, c) && rest.result == 0
    ensures PartRun(range, start, retryCount, round, c) == PartEnd(left + rest.data, false)
    ensures left + rest.data == remote[start..start + |range|] <==> left == remote[start..start + |left|]
  {
    SuccessIsRight(t.data[t.pos..], start + t.pos, round + 1, c, remote);
    var again := retryCount + t.remakes + 1;
    assert PartRun(t.data[t.pos..], start + t.pos, again, round + 1, c) == PartEnd(rest.data, false);
    FrontAndRest(left, rest.data, remote, start);
  }

  // ---------------------------------------------------------------------
  // The end of a whole range
  // ---------------------------------------------------------------------

  /** What becomes of a new part, as a function of its bytes and its start. */
  type Run = (seq<byte>, nat) -> PartEnd

  function NewPart(c: Config): Run { (range: seq<byte>, start: nat) => PartRun(range, start, 0, 0, c) }

  function RangeRun(range: seq<byte>, start: nat, m: nat, run: Run): (e: PartEnd)
    requires 0 < m
    decreases |range|
  {
    if range == [] then PartEnd([], false)
    else
      var n := HeadSize(range, m);
      Joined(run(range[..n], start), RangeRun(range[n..], start + n, m, run))
  }

  function Joined(a: PartEnd, b: PartEnd): PartEnd { PartEnd(a.range + b.range, a.refused || b.refused) }

  /** The size of the first part of a range. */
  function HeadSize(range: seq<byte>, m: nat): (n: nat)
    requires 0 < m && range != []
    ensures 0 < n <= |range|
  {
    if m < |range| then m else |range|
  }

  /** Every part of a range is good. */
  ghost predicate AllParts(range: seq<byte>, start: nat, m: nat, good: (seq<byte>, nat) -> bool)
    requires 0 < m
    decreases |range|
  {
    range == [] ||
    (var n := HeadSize(range, m); good(range[..n], start) && AllParts(range[n..], start + n, m, good))
  }

  /** Every part of the range is well answered. */
  ghost predicate AllWellAnswered(range: seq<byte>, start: nat, m: nat, c: Config, remote: seq<byte>)
    requires 0 < m
  {
    AllParts(range, start, m, GoodPart(c, remote))
  }

  ghost function GoodPart(c: Config, remote: seq<byte>): (seq<byte>, nat) -> bool {
    (range: seq<byte>, start: nat) => start + |range| <= |remote| && WellAnswered(range, start, 0, 0, c, remote)
  }

  lemma JoinedRight(a: PartEnd, b: PartEnd, remote: seq<byte>, start: nat)
    requires start + |a.range| + |b.range| <= |remote|
    ensures var e := Joined(a, b);
      && |e.range| == |a.range| + |b.range|
      && (e.range == remote[start..start + |e.range|] <==>
            (&& a.range == remote[start..start + |a.range|]
             && b.range == remote[start + |a.range|..start + |a.range| + |b.range|]))
  {
    FrontAndRest(a.range, b.range, remote, start);
  }

  ghost predicate Decides(run: Run, good: (seq<byte>, nat) -> bool, remote: seq<byte>) {
    forall range, start: nat :: start + |range| <= |remote| ==>
      Decided(run(range, start), good(range, start), remote, start, |range|)
  }

  lemma {:induction false} PartsDecide(range: seq<byte>, start: nat, m: nat, run: Run, good: (seq<byte>, nat) -> bool,
                                       remote: seq<byte>)
    requires 0 < m && start + |range| <= |remote| && Decides(run, good, remote)
    ensures Decided(RangeRun(range, start, m, run), AllParts(range, start, m, good), remote, start, |range|)
    decreases |range|
  {
    if range != [] {
      var n := HeadSize(range, m);
      PartsDecide(range[n..], start + n, m, run, good, remote);
      JoinedDecide(run(range[..n], start), RangeRun(range[n..], start + n, m, run), good(range[..n], start),
                   AllParts(range[n..], start + n, m, good), remote, start, n, |range|);
    }
  }

  lemma JoinedDecide(a: PartEnd, b: PartEnd, goodA: bool, goodB: bool, remote: seq<byte>, start: nat, n: nat, size: nat)
    requires n <= size && Decided(a, goodA, remote, start, n) && Decided(b, goodB, remote, start + n, size - n)
    ensures Decided(Joined(a, b), goodA && goodB, remote, start, size)
  {
    JoinedRight(a, b, remote, start);
  }

  /** A parallel download that reports success is right exactly if every part was well answered. */
  lemma RangeRight(range: seq<byte>, start: nat, m: nat, c: Config, remote: seq<byte>)
    requires 0 < m && start + |range| <= |remote| && HonestServer(c.get, remote)
    ensures var e := RangeRun(range, start, m, NewPart(c));
      |e.range| == |range| &&
      (!e.refused ==> (e.range == remote[start..start + |range|] <==> AllWellAnswered(range, start, m, c, remote)))
  {
    forall r, s: nat | s + |r| <= |remote|
      ensures Decided(NewPart(c)(r, s), GoodPart(c, remote)(r, s), remote, s, |r|)
    {
      PartRight(r, s, 0, 0, c, remote);
    }
    PartsDecide(range, start, m, NewPart(c), GoodPart(c, remote), remote);
  }

  /** Every part is answered with success in the first round. */
  ghost predicate SmoothServer(get: Server, retries: nat) {
    forall o: nat, n: nat :: 0 < n ==> Smooth(get(0, o, n), n, retries)
  }

  lemma SmoothPart(range: seq<byte>, start: nat, c: Config)
    requires SmoothServer(c.get, c.retries) && range != []
    ensures !PartRun(range, start, 0, 0, c).refused && Performed(range, start, 0, c).result == 0
  {
    SmoothSucceeds(range, 0, |range|, c.get(0, start, |range|), c.retries);
  }

  ghost predicate NeverRefused(run: Run) { forall range, start: nat :: range != [] ==> !run(range, start).refused }

  lemma {:induction false} NoneRefused(range: seq<byte>, start: nat, m: nat, run: Run)
    requires 0 < m && NeverRefused(run)
    ensures !RangeRun(range, start, m, run).refused
    decreases |range|
  {
    if range != [] {
      NoneRefused(range[HeadSize(range, m)..], start + HeadSize(range, m), m, run);
    }
  }

  ghost predicate AlwaysGood(good: (seq<byte>, nat) -> bool, length: nat) {
    forall range, start: nat :: range != [] && start + |range| <= length ==> good(range, start)
  }

  lemma {:induction false} AllGood(range: seq<byte>, start: nat, m: nat, good: (seq<byte>, nat) -> bool, length: nat)
    requires 0 < m && start + |range| <= length && AlwaysGood(good, length)
    ensures AllParts(range, start, m, good)
    decreases |range|
  {
    if range != [] {
      AllGood(range[HeadSize(range, m)..], start + HeadSize(range, m), m, good, length);
    }
  }

  /** Then no part is given up, and every part is well answered. */
  lemma SmoothRange(range: seq<byte>, start: nat, m: nat, c: Config, remote: seq<byte>)
    requires 0 < m && SmoothServer(c.get, c.retries)
    ensures !RangeRun(range, start, m, NewPart(c)).refused
    ensures start + |range| <= |remote| ==> AllWellAnswered(range, start, m, c, remote)
  {
    forall r, s: nat | r != [] ensures !NewPart(c)(r, s).refused { SmoothPart(r, s, c); }
    NoneRefused(range, start, m, NewPart(c));
    forall r, s: nat | r != [] && s + |r| <= |remote| ensures GoodPart(c, remote)(r, s) { SmoothPart(r, s, c); }
    if start + |range| <= |remote| { AllGood(range, start, m, GoodPart(c, remote), |remote|); }
  }

  /** A run that leaves every part as it is and takes it for done. */
  ghost predicate KeepsAll(run: Run) { forall range, start: nat :: run(range, start) == PartEnd(range, false) }

  lemma {:induction false} AllKept(range: seq<byte>, start: nat, m: nat, run: Run)
    requires 0 < m && KeepsAll(run)
    ensures RangeRun(range, start, m, run) == PartEnd(range, false)
    decreases |range|
  {
    if range != [] {
      var n := HeadSize(range, m);
      AllKept(range[n..], start + n, m, run);
      assert range[..n] + range[n..] == range;
    }
  }

  /** Every try of every request times out before a byte arrives. */
  ghost predicate SilentServer(get: Server, retries: nat) {
    forall round: nat, o: nat, n: nat ::
      && retries <= |get(round, o, n)|
      && forall a :: a in get(round, o, n) ==> a == Attempt([], Transient)
  }

  /** Then the download of any range is a success that changes nothing. */
  lemma SilentRange(range: seq<byte>, start: nat, m: nat, c: Config)
    requires 0 < m && SilentServer(c.get, c.retries)
    ensures RangeRun(range, start, m, NewPart(c)) == PartEnd(range, false)
  {
    forall r, s: nat ensures NewPart(c)(r, s) == PartEnd(r, false) { Unanswered(r, s, 0, 0, c); }
    AllKept(range, start, m, NewPart(c));
  }

  // ---------------------------------------------------------------------
  // Where a part stands
  // ---------------------------------------------------------------------

  /** Part q is queued: performing it from here leads to the end that was to be. */
  ghost predicate Waits(now: seq<byte>, orig: Part, want: PartEnd, q: Part, round: nat, c: Config) {
    && |now| == orig.size && orig.start <= q.start && q.End() == orig.End()
    && want == Prefixed(now[..q.start - orig.start],
                        PartRun(now[q.start - orig.start..], q.start, q.retryCount, round, c))
  }

  /** Part a is performed: reading its answer leads to the end that was to be. */
  ghost predicate Answered(now: seq<byte>, orig: Part, want: PartEnd, a: Asked, round: nat, c: Config) {
    && |now| == orig.size && orig.start <= a.part.start && a.part.End() == orig.End() && a.pos <= a.part.size
    && want == Prefixed(now[..a.part.start - orig.start],
                        PartRead(now[a.part.start - orig.start..], a.part.start, a.code, a.pos, a.retryCount, round, c))
  }

  ghost predicate Over(now: seq<byte>, want: PartEnd) { want == PartEnd(now, false) }

  /** The request of a part as it stands after it was performed. */
  function AskedBy(range: seq<byte>, q: Part, round: nat, c: Config): Asked
  {
    var t := Performed(range, q.start, round, c);
    Asked(q, t.code, t.pos, q.retryCount + t.remakes)
  }

  lemma WaitsPerformed(now: seq<byte>, orig: Part, want: PartEnd, q: Part, round: nat, c: Config)
    requires Waits(now, orig, want, q, round, c)
    ensures var k := q.start - orig.start;
      Answered(now[..k] + Performed(now[k..], q.start, round, c).data, orig, want, AskedBy(now[k..], q, round, c),
               round, c)
  {
    FrontKept(now, q.start - orig.start, Performed(now[q.start - orig.start..], q.start, round, c).data);
  }

  lemma FrontKept(now: seq<byte>, k: nat, tail: seq<byte>)
    requires k <= |now| && k + |tail| == |now|
    ensures (now[..k] + tail)[..k] == now[..k] && (now[..k] + tail)[k..] == tail
  {
  }

  lemma AnsweredRead(now: seq<byte>, orig: Part, want: PartEnd, a: Asked, round: nat, c: Config)
    requires Answered(now, orig, want, a, round, c)
    ensures !Repeated(a.code) ==> Over(now, want)
    ensures Repeated(a.code) && c.retries <= a.retryCount ==> want.refused
    ensures Repeated(a.code) && a.retryCount < c.retries ==>
      Waits(now, orig, want, Part(a.part.num, a.part.start + a.pos, a.part.size - a.pos, a.retryCount + 1),
            round + 1, c)
  {
    var k := a.part.start - orig.start;
    assert now[..k] + now[k..] == now;
    if Repeated(a.code) && a.retryCount < c.retries {
      assert now[k..][a.pos..] == now[k + a.pos..];
      assert now[..k] + now[k..][..a.pos] == now[..k + a.pos];
      var rest := PartRun(now[k + a.pos..], a.part.start + a.pos, a.retryCount + 1, round + 1, c);
      assert now[..k] + (now[k..][..a.pos] + rest.range) == now[..k + a.pos] + rest.range;
    }
  }

  // ---------------------------------------------------------------------
  // A group of parts
  // ---------------------------------------------------------------------

  /** The parts of a group and what is to become of each. */
  datatype Plan = Plan(origs: seq<Part>, wants: seq<PartEnd>, c: Config)

  /** Numbered parts one behind the other in a file of some length. */
  ghost predicate Planned(p: Plan, length: nat) {
    && |p.wants| == |p.origs|
    && (forall j :: 0 <= j < |p.origs| ==> p.origs[j].num == j && p.origs[j].End() <= length)
    && (forall j, k :: 0 <= j < k < |p.origs| ==> p.origs[j].End() <= p.origs[k].start)
  }

  function Now(data: seq<byte>, orig: Part): seq<byte> { Slice(data, orig.start, orig.size) }

  ghost predicate PartWaits(data: seq<byte>, p: Plan, q: Part, round: nat) {
    && q.num < |p.origs| && q.num < |p.wants|
    && Waits(Now(data, p.origs[q.num]), p.origs[q.num], p.wants[q.num], q, round, p.c)
  }

  ghost predicate PartAnswered(data: seq<byte>, p: Plan, a: Asked, round: nat) {
    && a.part.num < |p.origs| && a.part.num < |p.wants|
    && Answered(Now(data, p.origs[a.part.num]), p.origs[a.part.num], p.wants[a.part.num], a, round, p.c)
  }

  ghost predicate PartOver(data: seq<byte>, p: Plan, n: nat) {
    n < |p.origs| && n < |p.wants| && Over(Now(data, p.origs[n]), p.wants[n])
  }

  ghost predicate InReq(n: nat, req: seq<Asked>, from: nat) { exists i :: from <= i < |req| && req[i].part.num == n }

  ghost predicate InAll(n: nat, all: seq<Part>) { exists i :: 0 <= i < |all| && all[i].num == n }

  ghost predicate Ascending(req: seq<Asked>) {
    forall i, j :: 0 <= i < j < |req| ==> req[i].part.num < req[j].part.num
  }

  ghost predicate AscendingQueue(all: seq<Part>) { forall i, j :: 0 <= i < j < |all| ==> all[i].num < all[j].num }

  /** A part that is neither queued nor among the requests from number i on is over. */
  ghost predicate OthersOver(data: seq<byte>, p: Plan, req: seq<Asked>, i: nat, all: seq<Part>) {
    forall n: nat :: n < |p.origs| && !InReq(n, req, i) && !InAll(n, all) ==> PartOver(data, p, n)
  }

  /** Between two rounds: every queued part waits. */
  ghost predicate Between(data: seq<byte>, p: Plan, all: seq<Part>, round: nat) {
    && Planned(p, |data|) && AscendingQueue(all) && OthersOver(data, p, [], 0, all)
    && forall i :: 0 <= i < |all| ==> PartWaits(data, p, all[i], round)
  }

  /** In a round: the requests in todo wait, the others are performed. */
  ghost predicate During(data: seq<byte>, p: Plan, req: seq<Asked>, todo: set<nat>, round: nat) {
    && Planned(p, |data|) && Ascending(req) && OthersOver(data, p, req, 0, [])
    && forall i :: 0 <= i < |req| ==>
         if i in todo then PartWaits(data, p, req[i].part, round) else PartAnswered(data, p, req[i], round)
  }

  /** Behind a round: the queue of the next one so far, and the answers still to be read. */
  ghost predicate Reading(data: seq<byte>, p: Plan, req: seq<Asked>, i: nat, all: seq<Part>, round: nat) {
    && Planned(p, |data|) && Ascending(req) && AscendingQueue(all) && OthersOver(data, p, req, i, all)
    && Before(all, req, i)
    && (forall k :: i <= k < |req| ==> PartAnswered(data, p, req[k], round))
    && (forall k :: 0 <= k < |all| ==> PartWaits(data, p, all[k], round + 1))
  }

  /** What is queued stands before the answers still to be read. */
  ghost predicate Before(all: seq<Part>, req: seq<Asked>, i: nat) {
    forall j, k :: 0 <= j < |all| && i <= k < |req| ==> all[j].num < req[k].part.num
  }

  /** Replacing the range of part q shows in the range of its own part only. */
  lemma SpliceShows(data: seq<byte>, orig: Part, q: Part, range: seq<byte>)
    requires orig.End() <= |data| && q.End() <= |data| && |range| == q.size
    ensures q.End() <= orig.start || orig.End() <= q.start ==>
      Now(Splice(data, q.start, range), orig) == Now(data, orig)
    ensures orig.start <= q.start && q.End() == orig.End() ==>
      && Now(Splice(data, q.start, range), orig) == Now(data, orig)[..q.start - orig.start] + range
      && Now(data, orig)[q.start - orig.start..] == Cut(data, q.start, q.size)
  {
  }

  /** Performing a waiting part leads to its answer and shows nowhere else. */
  lemma PartPerformed(data: seq<byte>, p: Plan, q: Part, round: nat)
    requires Planned(p, |data|) && PartWaits(data, p, q, round)
    ensures q.End() <= |data| && p.origs[q.num].start <= q.start && q.End() == p.origs[q.num].End()
    ensures var range := Cut(data, q.start, q.size);
      var after := Splice(data, q.start, Performed(range, q.start, round, p.c).data);
      && PartAnswered(after, p, AskedBy(range, q, round, p.c), round)
      && forall n :: 0 <= n < |p.origs| && n != q.num ==> Now(after, p.origs[n]) == Now(data, p.origs[n])
  {
    var orig := p.origs[q.num];
    var done := Performed(Cut(data, q.start, q.size), q.start, round, p.c).data;
    WaitsPerformed(Now(data, orig), orig, p.wants[q.num], q, round, p.c);
    SpliceShows(data, orig, q, done);
    forall n | 0 <= n < |p.origs| && n != q.num
      ensures Now(Splice(data, q.start, done), p.origs[n]) == Now(data, p.origs[n])
    {
      SpliceShows(data, p.origs[n], q, done);
    }
  }

  /** Performing request i of a round. */
  lemma PerformStep(data: seq<byte>, p: Plan, req: seq<Asked>, todo: set<nat>, i: nat, round: nat)
    requires During(data, p, req, todo, round) && i < |req| && i in todo
    ensures req[i].part.End() <= |data| && req[i].part.num < |p.origs|
    ensures p.origs[req[i].part.num].start <= req[i].part.start && req[i].part.End() == p.origs[req[i].part.num].End()
    ensures var q := req[i].part;
      var range := Cut(data, q.start, q.size);
      During(Splice(data, q.start, Performed(range, q.start, round, p.c).data), p,
             req[i := AskedBy(range, q, round, p.c)], todo - {i}, round)
  {
    var q := req[i].part;
    PartPerformed(data, p, q, round);
    var range := Cut(data, q.start, q.size);
    var after := Splice(data, q.start, Performed(range, q.start, round, p.c).data);
    var req' := req[i := AskedBy(range, q, round, p.c)];
    forall n: nat ensures InReq(n, req', 0) <==> InReq(n, req, 0) {
      SameNumbers(req, req', n);
    }
    assert OthersOver(after, p, req', 0, []) by {
      forall n: nat | n < |p.origs| && !InReq(n, req', 0) && !InAll(n, []) ensures PartOver(after, p, n) {
        assert PartOver(data, p, n) && n != q.num;
      }
    }
  }

  lemma SameNumbers(req: seq<Asked>, req': seq<Asked>, n: nat)
    requires |req'| == |req| && forall i :: 0 <= i < |req| ==> req'[i].part == req[i].part
    ensures InReq(n, req', 0) <==> InReq(n, req, 0)
  {
    if InReq(n, req, 0) {
      var i :| 0 <= i < |req| && req[i].part.num == n;
      assert req'[i].part.num == n;
    }
  }

  /** What MultiRead queues for a request that is asked for again. */
  function Again(a: Asked): Part
    requires a.pos <= a.part.size
  {
    Part(a.part.num, a.part.start + a.pos, a.part.size - a.pos, a.retryCount + 1)
  }

  lemma ReadStart(data: seq<byte>, p: Plan, req: seq<Asked>, round: nat)
    requires During(data, p, req, {}, round)
    ensures Reading(data, p, req, 0, [], round)
  {
  }

  /** Reading answer i of a round. */
  lemma ReadStep(data: seq<byte>, p: Plan, req: seq<Asked>, i: nat, all: seq<Part>, round: nat)
    requires i < |req| && Reading(data, p, req, i, all, round)
    ensures req[i].pos <= req[i].part.size
    ensures !Repeated(req[i].code) ==> Reading(data, p, req, i + 1, all, round)
    ensures Repeated(req[i].code) && req[i].retryCount < p.c.retries ==>
      Reading(data, p, req, i + 1, all + [Again(req[i])], round)
    ensures Repeated(req[i].code) && p.c.retries <= req[i].retryCount ==> SomeRefused(p)
  {
    var n := req[i].part.num;
    assert PartAnswered(data, p, req[i], round);
    AnsweredRead(Now(data, p.origs[n]), p.origs[n], p.wants[n], req[i], round, p.c);
    if !Repeated(req[i].code) {
      ReadDropped(data, p, req, i, all);
    } else if req[i].retryCount < p.c.retries {
      ReadQueued(data, p, req, i, all);
    }
  }

  lemma ReadDropped(data: seq<byte>, p: Plan, req: seq<Asked>, i: nat, all: seq<Part>)
    requires i < |req| && OthersOver(data, p, req, i, all) && PartOver(data, p, req[i].part.num)
    ensures OthersOver(data, p, req, i + 1, all)
  {
    forall n: nat ensures InReq(n, req, i) ==> n == req[i].part.num || InReq(n, req, i + 1) {
    }
  }

  lemma ReadQueued(data: seq<byte>, p: Plan, req: seq<Asked>, i: nat, all: seq<Part>)
    requires i < |req| && OthersOver(data, p, req, i, all) && req[i].pos <= req[i].part.size
    requires Before(all, req, i) && Ascending(req) && AscendingQueue(all)
    ensures OthersOver(data, p, req, i + 1, all + [Again(req[i])])
    ensures Before(all + [Again(req[i])], req, i + 1) && AscendingQueue(all + [Again(req[i])])
  {
    forall n: nat
      ensures InReq(n, req, i) || InAll(n, all) ==> InReq(n, req, i + 1) || InAll(n, all + [Again(req[i])])
    {
      LastQueued(all, Again(req[i]), n);
    }
  }

  lemma LastQueued(all: seq<Part>, q: Part, n: nat)
    ensures InAll(n, all) || n == q.num ==> InAll(n, all + [q])
  {
    var more := all + [q];
    if InAll(n, all) {
      var i :| 0 <= i < |all| && all[i].num == n;
      assert more[i].num == n;
    }
    assert more[|all|] == q;
  }

  lemma ReadEnd(data: seq<byte>, p: Plan, req: seq<Asked>, all: seq<Part>, round: nat)
    requires Reading(data, p, req, |req|, all, round)
    ensures Between(data, p, all, round + 1)
  {
  }

  /** A queue becomes the requests of a round. */
  lemma QueueAsked(data: seq<byte>, p: Plan, all: seq<Part>, req: seq<Asked>, round: nat)
    requires Between(data, p, all, round)
    requires |req| == |all| && forall i :: 0 <= i < |all| ==> req[i].part == all[i]
    ensures During(data, p, req, Places(|req|), round)
  {
    forall n: nat | n < |p.origs| && !InReq(n, req, 0) ensures PartOver(data, p, n) {
      QueuedIsAsked(all, req, n);
    }
  }

  lemma QueuedIsAsked(all: seq<Part>, req: seq<Asked>, n: nat)
    requires |req| == |all| && forall i :: 0 <= i < |all| ==> req[i].part == all[i]
    requires !InReq(n, req, 0)
    ensures !InAll(n, all) && !InReq(n, [], 0)
  {
    forall i | 0 <= i < |all| ensures all[i].num != n { assert req[i].part.num != n; }
  }

  /** The plan for a group of new parts: what each part comes to on its own. */
  function PlanFor(data: seq<byte>, origs: seq<Part>, c: Config): Plan {
    Plan(origs, seq(|origs|, j requires 0 <= j < |origs| => PartRun(Now(data, origs[j]), origs[j].start, 0, 0, c)), c)
  }

  lemma AtFirst(data: seq<byte>, origs: seq<Part>, c: Config)
    requires Planned(PlanFor(data, origs, c), |data|) && forall j :: 0 <= j < |origs| ==> origs[j].retryCount == 0
    ensures Between(data, PlanFor(data, origs, c), origs, 0)
  {
    var p := PlanFor(data, origs, c);
    forall j | 0 <= j < |origs| ensures PartWaits(data, p, origs[j], 0) && InAll(j, origs) {
      var now := Now(data, origs[j]);
      assert now[..0] == [] && now[0..] == now && [] + p.wants[j].range == p.wants[j].range;
      assert origs[j].num == j;
    }
  }

  ghost predicate AllOver(data: seq<byte>, p: Plan) { forall n: nat :: n < |p.origs| ==> PartOver(data, p, n) }

  lemma AtLast(data: seq<byte>, p: Plan, round: nat)
    requires Between(data, p, [], round)
    ensures AllOver(data, p)
  {
    forall n: nat | n < |p.origs| ensures PartOver(data, p, n) {
      assert !InReq(n, [], 0) && !InAll(n, []);
    }
  }

  /** Nothing outside [lo, hi) differs. */
  ghost predicate Untouched(before: seq<byte>, after: seq<byte>, lo: nat, hi: nat) {
    |after| == |before| && forall i :: 0 <= i < |after| && !(lo <= i < hi) ==> after[i] == before[i]
  }

  lemma StillUntouched(a: seq<byte>, b: seq<byte>, c: seq<byte>, lo: nat, hi: nat)
    requires Untouched(a, b, lo, hi) && Untouched(b, c, lo, hi)
    ensures Untouched(a, c, lo, hi)
  {
  }

  ghost predicate InBounds(p: Plan, lo: nat, hi: nat) {
    forall j :: 0 <= j < |p.origs| ==> lo <= p.origs[j].start && p.origs[j].End() <= hi
  }

  /** The same requests, performed or not; performing never lowers a retry count. */
  ghost predicate SameParts(before: seq<Asked>, after: seq<Asked>) {
    |after| == |before| && forall i :: 0 <= i < |after| ==>
      after[i].part == before[i].part && after[i].part.retryCount <= after[i].retryCount
  }

  lemma StillSameParts(a: seq<Asked>, b: seq<Asked>, c: seq<Asked>)
    requires SameParts(a, b) && SameParts(b, c)
    ensures SameParts(a, c)
  {
  }

  /** Every queued part has been tried in each of the rounds before this one. */
  ghost predicate Counted(all: seq<Part>, round: nat, retries: nat) {
    forall q :: q in all ==> round <= q.retryCount && (0 < round ==> q.retryCount <= retries)
  }

  // ---------------------------------------------------------------------
  // The rounds
  // ---------------------------------------------------------------------

  /** S3fsMultiCurl for downloads. */
  class MultiGet {
    const file: LocalFile
    const c: Config
    var clistAll: seq<Part>
    var clistReq: seq<Asked>

    constructor (file: LocalFile, c: Config, parts: seq<Part>)
      ensures this.file == file && this.c == c && clistAll == parts && clistReq == []
    {
      this.file, this.c, clistAll, clistReq := file, c, parts, [];
    }

    /** One thread: perform the request for a part. */
    method Perform(q: Part, round: nat) returns (a: Asked)
      requires q.End() <= |file.data|
      modifies file
      ensures a == AskedBy(Cut(old(file.data), q.start, q.size), q, round, c)
      ensures var range := Cut(old(file.data), q.start, q.size);
        file.data == Splice(old(file.data), q.start, Performed(range, q.start, round, c).data)
    {
      ghost var before, range := file.data, Cut(file.data, q.start, q.size);
      var request := new GetRequest(file, q.start, q.size, q.retryCount);
      var result := request.RequestPerform(c.get(round, q.start, q.size), c.retries);
      SpliceCut(before, q.start, range);
      TriedSpliced(before, q.start, range, c.get(round, q.start, q.size), c.retries);
      a := Asked(q, request.lastResponseCode, request.Stored(), request.retryCount);
    }

    /** Perform all requests of a round; the threads may get through in any order. */
    method MultiPerform(round: nat, ghost p: Plan, ghost lo: nat, ghost hi: nat)
      requires p.c == c && InBounds(p, lo, hi) && During(file.data, p, clistReq, Places(|clistReq|), round)
      requires SameParts(clistReq, clistReq)
      modifies `clistReq, file
      ensures Untouched(old(file.data), file.data, lo, hi) && SameParts(old(clistReq), clistReq)
      ensures During(file.data, p, clistReq, {}, round)
    {
      var todo: set<nat> := Places(|clistReq|);
      while todo != {}
        invariant Untouched(old(file.data), file.data, lo, hi) && SameParts(old(clistReq), clistReq)
        invariant forall i :: i in todo ==> i < |clistReq|
        invariant During(file.data, p, clistReq, todo, round)
        decreases |todo|
      {
        var i :| i in todo;
        ghost var data, req := file.data, clistReq;
        PerformAt(i, todo, round, p, lo, hi);
        StillUntouched(old(file.data), data, file.data, lo, hi);
        StillSameParts(old(clistReq), req, clistReq);
        todo := todo - {i};
      }
    }

    /** Perform request i of the round. */
    method PerformAt(i: nat, ghost todo: set<nat>, round: nat, ghost p: Plan, ghost lo: nat, ghost hi: nat)
      requires p.c == c && InBounds(p, lo, hi) && During(file.data, p, clistReq, todo, round)
      requires i < |clistReq| && i in todo && SameParts(clistReq, clistReq)
      modifies `clistReq, file
      ensures Untouched(old(file.data), file.data, lo, hi) && SameParts(old(clistReq), clistReq)
      ensures During(file.data, p, clistReq, todo - {i}, round)
    {
      PerformStep(file.data, p, clistReq, todo, i, round);
      var a := Perform(clistReq[i].part, round);
      clistReq := clistReq[i := a];
    }

    /** ParallelGetObjectRetryCallback: a new request that starts where this one stopped, unless the
        tries are used up. */
    method ParallelRetry(a: Asked) returns (next: Option<Part>)
      requires a.pos <= a.part.size
      ensures next == None <==> c.retries <= a.retryCount
      ensures next.Some? ==>
        && next.value == Again(a) && next.value.End() == a.part.End()
        && next.value.start == a.part.start + a.pos && next.value.retryCount == a.retryCount + 1
    {
      if c.retries <= a.retryCount {
        return None;
      }
      next := Some(Part(a.part.num, a.part.start + a.pos, a.part.size - a.pos, a.retryCount + 1));
    }

    /** Read the answers in list order: drop, give up, or queue for another round. */
    method MultiRead(round: nat, ghost p: Plan) returns (result: int)
      requires p.c == c && During(file.data, p, clistReq, {}, round) && clistAll == []
      requires forall i :: 0 <= i < |clistReq| ==> round <= clistReq[i].retryCount
      modifies `clistAll, `clistReq
      ensures result == 0 ==> clistReq == [] && Between(file.data, p, clistAll, round + 1)
      ensures Counted(clistAll, round + 1, c.retries)
      ensures result != 0 ==> SomeRefused(p)
    {
      var i := 0;
      ReadStart(file.data, p, clistReq, round);
      while i < |clistReq|
        invariant i <= |clistReq| && clistReq == old(clistReq)
        invariant Reading(file.data, p, clistReq, i, clistAll, round)
        invariant Counted(clistAll, round + 1, c.retries)
      {
        var a := clistReq[i];
        ReadStep(file.data, p, clistReq, i, clistAll, round);
        if Repeated(a.code) {
          var next := ParallelRetry(a);
          if next == None {
            return -EIO;
          }
          clistAll := clistAll + [next.value];
        }
        i := i + 1;
      }
      ReadEnd(file.data, p, clistReq, clistAll, round);
      clistReq := [];
      return 0;
    }

    /** Rounds until nothing is queued or a part is given up. */
    method Request(ghost p: Plan, ghost lo: nat, ghost hi: nat) returns (result: int)
      requires p.c == c && InBounds(p, lo, hi) && Between(file.data, p, clistAll, 0) && clistReq == []
      modifies this, file
      ensures Untouched(old(file.data), file.data, lo, hi)
      ensures result == 0 ==> AllOver(file.data, p)
      ensures result != 0 ==> SomeRefused(p)
    {
      var round := 0;
      while clistAll != []
        invariant clistReq == [] && Untouched(old(file.data), file.data, lo, hi)
        invariant Between(file.data, p, clistAll, round) && Counted(clistAll, round, c.retries)
        decreases c.retries + 1 - round
      {
        assert clistAll[0] in clistAll;
        ghost var data := file.data;
        result := Round(round, p, lo, hi);
        StillUntouched(old(file.data), data, file.data, lo, hi);
        if result != 0 {
          return;
        }
        round := round + 1;
      }
      AtLast(file.data, p, round);
      return 0;
    }

    /** One round: ask for everything that is queued, and read the answers. */
    method Round(round: nat, ghost p: Plan, ghost lo: nat, ghost hi: nat) returns (result: int)
      requires p.c == c && InBounds(p, lo, hi) && Between(file.data, p, clistAll, round) && clistReq == []
      requires Counted(clistAll, round, c.retries)
      modifies this, file
      ensures Untouched(old(file.data), file.data, lo, hi) && Counted(clistAll, round + 1, c.retries)
      ensures result == 0 ==> clistReq == [] && Between(file.data, p, clistAll, round + 1)
      ensures result != 0 ==> SomeRefused(p)
    {
      ghost var queued := clistAll;
      clistReq := seq(|clistAll|, i requires 0 <= i < |clistAll| reads this =>
        Asked(clistAll[i], -1, 0, clistAll[i].retryCount));
      QueueAsked(file.data, p, clistAll, clistReq, round);
      clistAll := [];
      MultiPerform(round, p, lo, hi);
      forall i | 0 <= i < |clistReq| ensures round <= clistReq[i].retryCount {
        assert clistReq[i].part == queued[i] && queued[i] in queued;
      }
      result := MultiRead(round, p);
    }
  }

  // ---------------------------------------------------------------------
  // The whole download
  // ---------------------------------------------------------------------

  function ChunkSize(rest: nat, m: nat): (n: nat)
    requires 0 < rest && 0 < m
    ensures 0 < n <= rest
  {
    if m < rest then m else rest
  }

  /** The parts of the next group: at most cnt of them, of m bytes each but the last. */
  function GroupParts(num: nat, start: nat, rest: nat, m: nat, cnt: nat): (ps: seq<Part>)
    requires 0 < m
    ensures |ps| <= cnt && (0 < cnt && 0 < rest ==> ps != [])
    decreases cnt
  {
    if cnt == 0 || rest == 0 then []
    else
      var chunk := ChunkSize(rest, m);
      [Part(num, start, chunk, 0)] + GroupParts(num + 1, start + chunk, rest - chunk, m, cnt - 1)
  }

  /** Parts that take the next bytes of [at, end), one behind the other. */
  predicate Follows(ps: seq<Part>, at: nat, end: nat, m: nat) {
    ps == [] ||
    (&& 0 < m && at < end && ps[0].start == at && ps[0].size == ChunkSize(end - at, m)
     && Follows(ps[1..], ps[0].End(), end, m))
  }

  lemma {:induction false} GroupFollows(num: nat, start: nat, rest: nat, m: nat, cnt: nat)
    requires 0 < m
    ensures Follows(GroupParts(num, start, rest, m, cnt), start, start + rest, m)
    decreases cnt
  {
    if cnt != 0 && rest != 0 {
      var chunk := ChunkSize(rest, m);
      GroupFollows(num + 1, start + chunk, rest - chunk, m, cnt - 1);
      assert GroupParts(num, start, rest, m, cnt)[1..] == GroupParts(num + 1, start + chunk, rest - chunk, m, cnt - 1);
    }
  }

  /** How many bytes the group covers. */
  function Covered(ps: seq<Part>): nat { if ps == [] then 0 else ps[0].size + Covered(ps[1..]) }

  lemma {:induction false} GroupShape(num: nat, start: nat, rest: nat, m: nat, cnt: nat)
    requires 0 < m
    ensures var ps := GroupParts(num, start, rest, m, cnt);
      && Covered(ps) <= rest && (ps != [] ==> 0 < Covered(ps))
      && (forall j :: 0 <= j < |ps| ==>
            && ps[j].num == num + j && ps[j].retryCount == 0
            && start <= ps[j].start && ps[j].End() <= start + Covered(ps))
      && (forall j, k :: 0 <= j < k < |ps| ==> ps[j].End() <= ps[k].start)
    decreases cnt
  {
    if cnt != 0 && rest != 0 {
      var chunk := ChunkSize(rest, m);
      GroupShape(num + 1, start + chunk, rest - chunk, m, cnt - 1);
      var ps := GroupParts(num, start, rest, m, cnt);
      var tail := GroupParts(num + 1, start + chunk, rest - chunk, m, cnt - 1);
      assert ps[1..] == tail;
      assert forall j :: 0 < j < |ps| ==> ps[j] == tail[j - 1];
    }
  }

  /** What [at, end) of a file comes to. */
  function RestRun(data: seq<byte>, at: nat, end: nat, m: nat, run: Run): PartEnd
    requires 0 < m && at <= end <= |data|
  {
    RangeRun(data[at..end], at, m, run)
  }

  /** This end of a range is [from, to) as it is in the file, followed by another end. */
  ghost predicate Continues(all: PartEnd, data: seq<byte>, from: nat, to: nat, last: PartEnd) {
    from <= to <= |data| && all == Joined(PartEnd(data[from..to], false), last)
  }

  lemma RestRunStep(data: seq<byte>, at: nat, end: nat, m: nat, run: Run, next: nat)
    requires 0 < m && at < end <= |data| && next == at + ChunkSize(end - at, m)
    ensures RestRun(data, at, end, m, run) == Joined(run(data[at..next], at), RestRun(data, next, end, m, run))
  {
    assert data[at..end][..next - at] == data[at..next] && data[at..end][next - at..] == data[next..end];
  }

  /** Every part of a group ended as it was to. */
  ghost predicate GroupIsOver(before: seq<byte>, after: seq<byte>, ps: seq<Part>, run: Run) {
    forall q :: q in ps ==> Over(Slice(after, q.start, q.size), run(Slice(before, q.start, q.size), q.start))
  }

  lemma FirstOver(before: seq<byte>, after: seq<byte>, ps: seq<Part>, run: Run)
    requires ps != [] && GroupIsOver(before, after, ps, run) && ps[0].End() <= |before| == |after|
    ensures run(before[ps[0].start..ps[0].End()], ps[0].start) == PartEnd(after[ps[0].start..ps[0].End()], false)
    ensures GroupIsOver(before, after, ps[1..], run)
  {
    assert ps[0] in ps && forall q :: q in ps[1..] ==> q in ps;
  }

  /** When every part of a group is over, the front of the range is what it was to become. */
  lemma {:induction false} GroupOver(before: seq<byte>, after: seq<byte>, ps: seq<Part>, at: nat, end: nat, next: nat,
                                     m: nat, run: Run)
    requires 0 < m && at <= end <= |before| == |after| && Follows(ps, at, end, m) && next == at + Covered(ps) <= end
    requires GroupIsOver(before, after, ps, run)
    ensures Continues(RestRun(before, at, end, m, run), after, at, next, RestRun(before, next, end, m, run))
    decreases |ps|
  {
    if ps == [] {
      NothingFirst(after, at, RestRun(before, at, end, m, run));
    } else {
      var q := ps[0].End();
      FirstOver(before, after, ps, run);
      RestRunStep(before, at, end, m, run, q);
      GroupOver(before, after, ps[1..], q, end, next, m, run);
      OverStep(after, at, q, next, RestRun(before, q, end, m, run), RestRun(before, next, end, m, run));
    }
  }

  lemma NothingFirst(data: seq<byte>, at: nat, e: PartEnd)
    requires at <= |data|
    ensures Continues(e, data, at, at, e)
  {
    assert data[at..at] + e.range == e.range;
  }

  lemma OverStep(data: seq<byte>, at: nat, q: nat, next: nat, rest: PartEnd, last: PartEnd)
    requires at <= q <= next <= |data| && Continues(rest, data, q, next, last)
    ensures Continues(Joined(PartEnd(data[at..q], false), rest), data, at, next, last)
  {
    assert data[at..q] + data[q..next] == data[at..next];
    assert data[at..q] + (data[q..next] + last.range) == data[at..next] + last.range;
  }

  /** A part of a group that is given up gives up the range. */
  lemma {:induction false} GroupRefused(before: seq<byte>, ps: seq<Part>, at: nat, end: nat, m: nat, run: Run, n: nat)
    requires 0 < m && at <= end <= |before| && Follows(ps, at, end, m) && n < |ps|
    requires run(Slice(before, ps[n].start, ps[n].size), ps[n].start).refused
    ensures RestRun(before, at, end, m, run).refused
    decreases n
  {
    var q := ps[0].End();
    RestRunStep(before, at, end, m, run, q);
    if n != 0 {
      GroupRefused(before, ps[1..], q, end, m, run, n - 1);
    }
  }

  /** The set-up loop of a group. */
  method SetUpGroup(start: nat, rest: nat, m: nat, maxParallel: nat) returns (parts: seq<Part>, remaining: nat)
    requires 0 < m
    ensures parts == GroupParts(0, start, rest, m, maxParallel) && remaining == rest - Covered(parts)
  {
    parts, remaining := [], rest;
    ghost var at := start;
    while |parts| < maxParallel && 0 < remaining
      invariant remaining <= rest && at == start + (rest - remaining) && |parts| <= maxParallel
      invariant remaining == rest - Covered(parts)
      invariant GroupParts(0, start, rest, m, maxParallel)
             == parts + GroupParts(|parts|, at, remaining, m, maxParallel - |parts|)
      decreases remaining
    {
      var chunk := ChunkSize(remaining, m);
      var part := Part(|parts|, start + (rest - remaining), chunk, 0);
      OnePartMore(parts, part);
      parts := parts + [part];
      remaining, at := remaining - chunk, at + chunk;
    }
  }

  lemma {:induction false} OnePartMore(ps: seq<Part>, q: Part)
    ensures Covered(ps + [q]) == Covered(ps) + q.size
  {
    if ps == [] {
      assert [q][1..] == [];
    } else {
      OnePartMore(ps[1..], q);
      assert (ps + [q])[1..] == ps[1..] + [q];
    }
  }

  /** Download [start, start+size) in groups of parallel parts.  The call succeeds exactly if no part is
      given up, and then the range holds what each part came to. */
  method ParallelGetObjectRequest(file: LocalFile, start: nat, size: nat, m: nat, maxParallel: nat, c: Config)
    returns (result: int)
    requires 0 < m && 0 < maxParallel && start + size <= |file.data|
    modifies file
    ensures SameOutside(old(file.data), file.data, start, size) && |file.data| == |old(file.data)|
    ensures var e := RangeRun(Cut(old(file.data), start, size), start, m, NewPart(c));
      (result == 0 <==> !e.refused) && (result == 0 ==> Cut(file.data, start, size) == e.range)
  {
    var at, end := start, start + size;
    result := 0;
    ghost var run := NewPart(c);
    ghost var before := file.data;
    NothingFirst(before, start, RestRun(before, start, end, m, run));
    while at < end
      invariant at <= end && result == 0 && Untouched(before, file.data, start, end)
      invariant RangeBehind(before, file.data, start, at, end, m, run)
    {
      ghost var data := file.data;
      var next;
      result, next := GetGroup(file, at, end, m, maxParallel, c, run);
      StillUntouched(before, data, file.data, start, end);
      GroupBehind(before, data, file.data, start, at, next, end, m, run, result);
      if result != 0 {
        break;
      }
      at := next;
    }
    if result == 0 { NothingBehind(before, file.data, start, end, m, run); }
  }

  /** The range as far as it is downloaded, followed by what its rest will come to. */
  ghost predicate RangeBehind(before: seq<byte>, data: seq<byte>, start: nat, at: nat, end: nat, m: nat, run: Run) {
    && 0 < m && start <= at <= end <= |before| == |data|
    && Continues(RestRun(before, start, end, m, run), data, start, at, RestRun(data, at, end, m, run))
  }

  lemma NothingBehind(before: seq<byte>, data: seq<byte>, start: nat, end: nat, m: nat, run: Run)
    requires RangeBehind(before, data, start, end, end, m, run)
    ensures RestRun(before, start, end, m, run) == PartEnd(data[start..end], false)
  {
    assert data[start..end] + [] == data[start..end];
  }

  /** What a group did to the rest of a range: it is given up, or its front is what it came to. */
  ghost predicate GroupDone(data: seq<byte>, after: seq<byte>, at: nat, next: nat, end: nat, m: nat, run: Run,
                            result: int) {
    && 0 < m && at <= next <= end <= |data| == |after| && Untouched(data, after, at, next)
    && if result != 0 then RestRun(data, at, end, m, run).refused
       else Continues(RestRun(data, at, end, m, run), after, at, next, RestRun(data, next, end, m, run))
  }

  /** One group. */
  method GetGroup(file: LocalFile, at: nat, end: nat, m: nat, maxParallel: nat, c: Config, ghost run: Run)
    returns (result: int, next: nat)
    requires 0 < m && 0 < maxParallel && at < end <= |file.data| && run == NewPart(c)
    modifies file
    ensures at < next && GroupDone(old(file.data), file.data, at, next, end, m, run, result)
  {
    var parts, rest := SetUpGroup(at, end - at, m, maxParallel);
    next := end - rest;
    ghost var before := file.data;
    ghost var p := PlanFor(before, parts, c);
    GroupReady(before, at, end, m, maxParallel, c);
    var curl := new MultiGet(file, c, parts);
    result := curl.Request(p, at, next);
    GroupFacts(parts, at, end, m, maxParallel);
    if result == 0 {
      GroupSucceeds(before, file.data, parts, at, next, end, m, c);
    } else {
      GroupFails(before, parts, at, end, m, c);
    }
  }

  predicate Numbered(ps: seq<Part>) { forall j :: 0 <= j < |ps| ==> ps[j].num == j }

  lemma GroupFacts(parts: seq<Part>, at: nat, end: nat, m: nat, cnt: nat)
    requires 0 < m && at < end && parts == GroupParts(0, at, end - at, m, cnt)
    ensures Follows(parts, at, end, m) && Numbered(parts) && at + Covered(parts) <= end
  {
    GroupShape(0, at, end - at, m, cnt);
    GroupFollows(0, at, end - at, m, cnt);
  }

  lemma GroupSucceeds(before: seq<byte>, after: seq<byte>, parts: seq<Part>, at: nat, next: nat, end: nat, m: nat,
                      c: Config)
    requires 0 < m && at < end <= |before| && Follows(parts, at, end, m) && Numbered(parts)
    requires next == at + Covered(parts) <= end && Untouched(before, after, at, next)
    requires AllOver(after, PlanFor(before, parts, c))
    ensures GroupDone(before, after, at, next, end, m, NewPart(c), 0)
  {
    PlanOver(before, after, parts, c);
    GroupOver(before, after, parts, at, end, next, m, NewPart(c));
  }

  lemma GroupFails(before: seq<byte>, ps: seq<Part>, at: nat, end: nat, m: nat, c: Config)
    requires 0 < m && at < end <= |before| && Follows(ps, at, end, m) && SomeRefused(PlanFor(before, ps, c))
    ensures RestRun(before, at, end, m, NewPart(c)).refused
  {
    var n :| 0 <= n < |ps| && PlanFor(before, ps, c).wants[n].refused;
    GroupRefused(before, ps, at, end, m, NewPart(c), n);
  }

  lemma GroupReady(data: seq<byte>, at: nat, end: nat, m: nat, cnt: nat, c: Config)
    requires 0 < m && 0 < cnt && at < end <= |data|
    ensures var ps := GroupParts(0, at, end - at, m, cnt);
      && 0 < Covered(ps) <= end - at
      && InBounds(PlanFor(data, ps, c), at, at + Covered(ps)) && Between(data, PlanFor(data, ps, c), ps, 0)
  {
    GroupShape(0, at, end - at, m, cnt);
    AtFirst(data, GroupParts(0, at, end - at, m, cnt), c);
  }

  lemma PlanOver(before: seq<byte>, after: seq<byte>, parts: seq<Part>, c: Config)
    requires AllOver(after, PlanFor(before, parts, c)) && Numbered(parts)
    ensures GroupIsOver(before, after, parts, NewPart(c))
  {
    forall q | q in parts
      ensures Over(Slice(after, q.start, q.size), NewPart(c)(Slice(before, q.start, q.size), q.start))
    {
      assert PartOver(after, PlanFor(before, parts, c), q.num);
    }
  }

  ghost predicate SomeRefused(p: Plan) { exists n :: 0 <= n < |p.wants| && p.wants[n].refused }

  /** The group after those that are behind. */
  lemma GroupBehind(before: seq<byte>, data: seq<byte>, after: seq<byte>, start: nat, at: nat, next: nat, end: nat,
                    m: nat, run: Run, result: int)
    requires RangeBehind(before, data, start, at, end, m, run) && GroupDone(data, after, at, next, end, m, run, result)
    ensures if result != 0 then RestRun(before, start, end, m, run).refused
            else RangeBehind(before, after, start, next, end, m, run)
  {
    if result == 0 {
      assert after[start..at] == data[start..at] && after[next..end] == data[next..end];
      OverStep(after, start, at, next, RestRun(data, at, end, m, run), RestRun(data, next, end, m, run));
    }
  }

  /** A 400 answer with a two-byte body, then a successful retry: the error text stays in the file. */
  method ErrorBodyStays() returns (file: LocalFile, result: int)
    ensures result == 0 && file.data == [60, 69, 3, 4]
  {
    file := new LocalFile();
    file.Ftruncate(4);
    var bad := [Attempt([Chunk([60, 69], [])], Response(400))];
    var good := [Attempt([Chunk([3, 4], [])], Response(206))];
    var c := Config((round: nat, start: nat, size: nat) => if round == 0 then bad else good, 5);
    ErrorBodyRun(bad, good, c);
    result := ParallelGetObjectRequest(file, 0, 4, 4, 1, c);
    assert Cut(file.data, 0, 4) == file.data;
  }

  lemma ErrorBodyRun(bad: seq<GetAttempt>, good: seq<GetAttempt>, c: Config)
    requires bad == [Attempt([Chunk([60, 69], [])], Response(400))]
    requires good == [Attempt([Chunk([3, 4], [])], Response(206))]
    requires c.get(0, 0, 4) == bad && c.get(1, 2, 2) == good && c.retries == 5
    ensures RangeRun([0, 0, 0, 0], 0, 4, NewPart(c)) == PartEnd([60, 69, 3, 4], false)
  {
    var zeros: seq<byte> := [0, 0, 0, 0];
    assert Delivered(bad[0].body) == [60, 69] && Delivered(good[0].body) == [3, 4] by {
      assert bad[0].body[1..] == [] && good[0].body[1..] == [];
    }
    TriedAtOnce(zeros, 0, 4, bad, 5);
    var t := Performed(zeros, 0, 0, c);
    assert t == Tried([60, 69, 0, 0], 2, 400, -EIO, 0);
    assert t.data[2..] == [0, 0];
    TriedAtOnce([0, 0], 0, 2, good, 5);
    assert Performed([0, 0], 2, 1, c).data == [3, 4];
    assert PartRun([0, 0], 2, 1, 1, c) == PartEnd([3, 4], false);
    assert PartRun(zeros, 0, 0, 0, c) == PartEnd([60, 69, 3, 4], false);
    assert zeros[..4] == zeros && zeros[4..] == [];
  }
}
