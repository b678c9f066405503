/** What the answers alone say about a part of a parallel download: when it is given up, and when it is
    right whatever was in the local file. */
module Answers {
  import opened Text
  import opened LocalFiles
  import opened Requests
  import opened Downloads
  import opened ParallelGets

  // ---------------------------------------------------------------------
  // What a request writes
  // ---------------------------------------------------------------------

  /** The bytes of a range, as far as they were written. */
  type Image = seq<Option<byte>>

  function Nothing(n: nat): (m: Image)
    ensures |m| == n
  {
    seq(n, _ => None)
  }

  function Pasted(m: Image, at: nat, bytes: seq<byte>): (r: Image)
    ensures |r| == |m|
  {
    seq(|m|, i requires 0 <= i < |m| => if at <= i < at + |bytes| then Some(bytes[i - at]) else m[i])
  }

  /** A range with an image laid over it. */
  function Over(range: seq<byte>, m: Image): (r: seq<byte>)
    requires |m| == |range|
    ensures |r| == |range|
  {
    seq(|range|, i requires 0 <= i < |range| => if m[i].Some? then m[i].value else range[i])
  }

  datatype Taken = Taken(image: Image, pos: nat, stopped: bool)

  /** A piece that arrives when pos bytes of the range are stored. */
  function Take(m: Image, pos: nat, c: Chunk): (t: Taken)
    requires pos <= |m|
    ensures pos <= t.pos <= |m| == |t.image|
  {
    if c.bytes == [] then Taken(m, pos, false)
    else
      var (n, failed) := Written(0, if |c.bytes| < |m| - pos then |c.bytes| else |m| - pos, c.io);
      Taken(Pasted(m, pos, c.bytes[..n]), if failed then pos else pos + n, failed || n != |c.bytes|)
  }

  function TakeAll(m: Image, pos: nat, chunks: seq<Chunk>): (t: Taken)
    requires pos <= |m|
    ensures pos <= t.pos <= |m| == |t.image|
    decreases |chunks|
  {
    if chunks == [] then Taken(m, pos, false)
    else
      var t := Take(m, pos, chunks[0]);
      if t.stopped then t else TakeAll(t.image, t.pos, chunks[1..])
  }

  /** A request after it was performed, as far as the answers decide it. */
  datatype Ending = Ending(image: Image, pos: nat, code: int, result: int, remakes: nat)

  function EndOf(m: Image, attempts: seq<GetAttempt>, left: nat): (e: Ending)
    ensures e.pos <= |m| == |e.image|
    decreases left
  {
    if left == 0 then Ending(m, 0, -1, -EIO, 0)
    else
      var t := TakeAll(m, 0, FirstOf(attempts).body);
      var outcome := if t.stopped then Transient else FirstOf(attempts).outcome;
      if Final(outcome) then Ending(t.image, t.pos, CodeOf(outcome), ResultOf(outcome), 0)
      else
        var e := EndOf(t.image, RestOf(attempts), left - 1);
        e.(remakes := e.remakes + 1)
  }

  lemma OverPasted(range: seq<byte>, m: Image, pos: nat, bytes: seq<byte>)
    requires |m| == |range| && pos + |bytes| <= |range|
    ensures Overwrite(Over(range, m), pos, bytes) == Over(range, Pasted(m, pos, bytes))
  {
  }

  lemma StoreTaken(range: seq<byte>, m: Image, pos: nat, c: Chunk)
    requires pos <= |range| == |m|
    ensures var t := Take(m, pos, c);
      Store(Over(range, m), 0, |range|, pos, c) == Fed(Over(range, t.image), t.pos, t.stopped)
  {
    if c.bytes != [] {
      var n := Written(0, if |c.bytes| < |range| - pos then |c.bytes| else |range| - pos, c.io).0;
      OverPasted(range, m, pos, c.bytes[..n]);
    }
  }

  lemma {:induction false} AllTaken(range: seq<byte>, m: Image, pos: nat, chunks: seq<Chunk>)
    requires pos <= |range| == |m|
    ensures var t := TakeAll(m, pos, chunks);
      StoreAll(Over(range, m), 0, |range|, pos, chunks) == Fed(Over(range, t.image), t.pos, t.stopped)
    decreases |chunks|
  {
    if chunks != [] {
      var t := Take(m, pos, chunks[0]);
      StoreTaken(range, m, pos, chunks[0]);
      if !t.stopped {
        AllTaken(range, t.image, t.pos, chunks[1..]);
      }
    }
  }

  /** Code, position, result and tries of a request are those of its answers, whatever was in the file,
      and what it wrote is their image. */
  lemma {:induction false} TriedEnds(range: seq<byte>, m: Image, attempts: seq<GetAttempt>, left: nat)
    requires |m| == |range|
    ensures var e := EndOf(m, attempts, left);
      TriedBy(Over(range, m), 0, |range|, attempts, left)
        == Tried(Over(range, e.image), e.pos, e.code, e.result, e.remakes)
    decreases left
  {
    if left != 0 {
      var t := TakeAll(m, 0, FirstOf(attempts).body);
      AllTaken(range, m, 0, FirstOf(attempts).body);
      TriedEnds(range, t.image, RestOf(attempts), left - 1);
    }
  }

  // ---------------------------------------------------------------------
  // A part
  // ---------------------------------------------------------------------

  function Answering(m: Image, o: nat, round: nat, c: Config): (e: Ending)
    ensures e.pos <= |m| == |e.image|
  {
    EndOf(m, c.get(round, o, |m|), c.retries)
  }

  /** The first n bytes are written, and right. */
  predicate Laid(m: Image, o: nat, n: nat, remote: seq<byte>) {
    n <= |m| && o + n <= |remote| && forall i :: 0 <= i < n ==> m[i] == Some(remote[o + i])
  }

  /** The part ends as an error. */
  predicate GivenUp(m: Image, o: nat, retryCount: nat, round: nat, c: Config)
    decreases TriesLeft(retryCount, c.retries), 1
  {
    var e := Answering(m, o, round, c);
    GivenUpThen(e.image, o, e.code, e.pos, retryCount + e.remakes, round, c)
  }

  predicate GivenUpThen(m: Image, o: nat, code: int, pos: nat, retryCount: nat, round: nat, c: Config)
    requires pos <= |m|
    decreases TriesLeft(retryCount, c.retries), 0
  {
    Repeated(code) && (c.retries <= retryCount || GivenUp(m[pos..], o + pos, retryCount + 1, round + 1, c))
  }

  /** Each refused answer has left bytes that were wanted, and the last one is a success, or has nothing
      more to add, or gives the part up. */
  predicate Sure(m: Image, o: nat, retryCount: nat, round: nat, c: Config, remote: seq<byte>)
    decreases TriesLeft(retryCount, c.retries), 1
  {
    var e := Answering(m, o, round, c);
    e.result == 0 || SureThen(e.image, o, e.code, e.pos, retryCount + e.remakes, round, c, remote)
  }

  predicate SureThen(m: Image, o: nat, code: int, pos: nat, retryCount: nat, round: nat, c: Config, remote: seq<byte>)
    requires pos <= |m|
    decreases TriesLeft(retryCount, c.retries), 0
  {
    if !Repeated(code) then Laid(m, o, |m|, remote)
    else
      || c.retries <= retryCount
      || GivenUp(m[pos..], o + pos, retryCount + 1, round + 1, c)
      || (Laid(m, o, pos, remote) && Sure(m[pos..], o + pos, retryCount + 1, round + 1, c, remote))
  }

  lemma OverRest(range: seq<byte>, m: Image, pos: nat)
    requires pos <= |range| == |m|
    ensures Over(range, m)[pos..] == Over(range[pos..], m[pos..])
  {
  }

  lemma Answer(range: seq<byte>, m: Image, o: nat, round: nat, c: Config)
    requires |m| == |range|
    ensures var e := Answering(m, o, round, c);
      Performed(Over(range, m), o, round, c) == Tried(Over(range, e.image), e.pos, e.code, e.result, e.remakes)
  {
    TriedEnds(range, m, c.get(round, o, |range|), c.retries);
  }

  lemma {:induction false} GivenUpMeans(range: seq<byte>, m: Image, o: nat, retryCount: nat, round: nat, c: Config)
    requires |m| == |range|
    ensures PartRun(Over(range, m), o, retryCount, round, c).refused <==> GivenUp(m, o, retryCount, round, c)
    decreases TriesLeft(retryCount, c.retries), 1
  {
    var e := Answering(m, o, round, c);
    Answer(range, m, o, round, c);
    GivenUpThenMeans(range, e.image, o, e.code, e.pos, retryCount + e.remakes, round, c);
  }

  lemma {:induction false} GivenUpThenMeans(range: seq<byte>, m: Image, o: nat, code: int, pos: nat, retryCount: nat,
                                            round: nat, c: Config)
    requires pos <= |m| == |range|
    ensures PartRead(Over(range, m), o, code, pos, retryCount, round, c).refused
       <==> GivenUpThen(m, o, code, pos, retryCount, round, c)
    decreases TriesLeft(retryCount, c.retries), 0
  {
    if Repeated(code) && retryCount < c.retries {
      OverRest(range, m, pos);
      GivenUpMeans(range[pos..], m[pos..], o + pos, retryCount + 1, round + 1, c);
    }
  }

  /** Every byte of a range is wrong. */
  predicate Unlike(range: seq<byte>, o: nat, remote: seq<byte>) {
    o + |range| <= |remote| && forall i :: 0 <= i < |range| ==> range[i] != remote[o + i]
  }

  function Wrong(o: nat, n: nat, remote: seq<byte>): (r: seq<byte>)
    requires o + n <= |remote|
    ensures |r| == n && Unlike(r, o, remote)
  {
    seq(n, i requires 0 <= i < n => if remote[o + i] == 0 then 1 else 0)
  }

  lemma LaidOver(range: seq<byte>, m: Image, o: nat, n: nat, remote: seq<byte>)
    requires n <= |range| == |m| && o + n <= |remote|
    ensures Laid(m, o, n, remote) ==> Over(range, m)[..n] == remote[o..o + n]
    ensures Over(range, m)[..n] == remote[o..o + n] && Unlike(range, o, remote) ==> Laid(m, o, n, remote)
  {
    var front := Over(range, m)[..n];
    if front == remote[o..o + n] && Unlike(range, o, remote) {
      forall i | 0 <= i < n ensures m[i] == Some(remote[o + i]) {
        assert front[i] == remote[o..o + n][i] == remote[o + i];
      }
    }
  }

  /** A sure part is given up or well answered, whatever was in the file; and one that is given up or well
      answered although every byte in the file was wrong is sure. */
  lemma {:induction false} SureMeans(range: seq<byte>, m: Image, o: nat, retryCount: nat, round: nat, c: Config,
                                     remote: seq<byte>)
    requires o + |range| <= |remote| && |m| == |range|
    ensures var good := PartRun(Over(range, m), o, retryCount, round, c).refused ||
                        WellAnswered(Over(range, m), o, retryCount, round, c, remote);
      && (Sure(m, o, retryCount, round, c, remote) ==> good)
      && (good && Unlike(range, o, remote) ==> Sure(m, o, retryCount, round, c, remote))
    decreases TriesLeft(retryCount, c.retries), 1
  {
    var e := Answering(m, o, round, c);
    Answer(range, m, o, round, c);
    SureThenMeans(range, e.image, o, e.code, e.pos, retryCount + e.remakes, round, c, remote);
  }

  lemma {:induction false} SureThenMeans(range: seq<byte>, m: Image, o: nat, code: int, pos: nat, retryCount: nat,
                                         round: nat, c: Config, remote: seq<byte>)
    requires pos <= |m| == |range| && o + |range| <= |remote|
    ensures var good := PartRead(Over(range, m), o, code, pos, retryCount, round, c).refused ||
                        WellRead(Over(range, m), o, code, pos, retryCount, round, c, remote);
      && (SureThen(m, o, code, pos, retryCount, round, c, remote) ==> good)
      && (good && Unlike(range, o, remote) ==> SureThen(m, o, code, pos, retryCount, round, c, remote))
    decreases TriesLeft(retryCount, c.retries), 0
  {
    var now := Over(range, m);
    if !Repeated(code) {
      assert now[..|range|] == now;
      LaidOver(range, m, o, |range|, remote);
    } else if retryCount < c.retries {
      LaidOver(range, m, o, pos, remote);
      OverRest(range, m, pos);
      UnlikeRest(range, o, pos, remote);
      GivenUpMeans(range[pos..], m[pos..], o + pos, retryCount + 1, round + 1, c);
      SureMeans(range[pos..], m[pos..], o + pos, retryCount + 1, round + 1, c, remote);
    }
  }

  lemma UnlikeRest(range: seq<byte>, o: nat, pos: nat, remote: seq<byte>)
    requires pos <= |range|
    ensures Unlike(range, o, remote) ==> Unlike(range[pos..], o + pos, remote)
  {
  }

  lemma NothingOver(range: seq<byte>)
    ensures Over(range, Nothing(|range|)) == range
  {
  }

  // ---------------------------------------------------------------------
  // A server
  // ---------------------------------------------------------------------

  /** Whatever is in the local file, every part of the object is given up or well answered. */
  ghost predicate SureServer(c: Config, remote: seq<byte>) {
    forall o: nat, n: nat :: o + n <= |remote| ==> Sure(Nothing(n), o, 0, 0, c, remote)
  }

  lemma SurePart(range: seq<byte>, o: nat, c: Config, remote: seq<byte>)
    requires SureServer(c, remote) && o + |range| <= |remote|
    ensures PartRun(range, o, 0, 0, c).refused || WellAnswered(range, o, 0, 0, c, remote)
  {
    NothingOver(range);
    SureMeans(range, Nothing(|range|), o, 0, 0, c, remote);
  }

  /** A part that is not sure is taken for done without being right, if all that was in the file is wrong. */
  lemma UnsurePart(o: nat, n: nat, c: Config, remote: seq<byte>)
    requires HonestServer(c.get, remote) && o + n <= |remote| && !Sure(Nothing(n), o, 0, 0, c, remote)
    ensures var e := PartRun(Wrong(o, n, remote), o, 0, 0, c);
      !e.refused && e.range != remote[o..o + n]
  {
    var range := Wrong(o, n, remote);
    NothingOver(range);
    SureMeans(range, Nothing(n), o, 0, 0, c, remote);
    PartRight(range, o, 0, 0, c, remote);
  }

  /** A request ends in a success, or in an answer after which it is asked again and of which nothing was
      stored but bytes that were wanted. */
  predicate WellEnded(e: Ending, o: nat, remote: seq<byte>) {
    e.result == 0 || (Repeated(e.code) && e.pos <= |e.image| && Laid(e.image, o, e.pos, remote))
  }

  ghost predicate PromptServer(c: Config, remote: seq<byte>) {
    forall round: nat, o: nat, n: nat :: 0 < n && o + n <= |remote| ==>
      WellEnded(EndOf(Nothing(n), c.get(round, o, n), c.retries), o, remote)
  }

  /** One image laid over another. */
  function Merged(m: Image, top: Image): (r: Image)
    requires |top| == |m|
    ensures |r| == |m|
  {
    seq(|m|, i requires 0 <= i < |m| => if top[i].Some? then top[i] else m[i])
  }

  lemma {:induction false} TakenMerged(m: Image, top: Image, pos: nat, chunks: seq<Chunk>)
    requires pos <= |m| == |top|
    ensures var t := TakeAll(top, pos, chunks);
      TakeAll(Merged(m, top), pos, chunks) == t.(image := Merged(m, t.image))
    decreases |chunks|
  {
    if chunks != [] {
      TakeMerged(m, top, pos, chunks[0]);
      var t := Take(top, pos, chunks[0]);
      if !t.stopped { TakenMerged(m, t.image, t.pos, chunks[1..]); }
    }
  }

  lemma TakeMerged(m: Image, top: Image, pos: nat, c: Chunk)
    requires pos <= |m| == |top|
    ensures var t := Take(top, pos, c); Take(Merged(m, top), pos, c) == t.(image := Merged(m, t.image))
  {
    if c.bytes != [] {
      var n := Written(0, if |c.bytes| < |m| - pos then |c.bytes| else |m| - pos, c.io).0;
      PastedMerged(m, top, pos, c.bytes[..n]);
    }
  }

  lemma PastedMerged(m: Image, top: Image, pos: nat, bytes: seq<byte>)
    requires |top| == |m|
    ensures Pasted(Merged(m, top), pos, bytes) == Merged(m, Pasted(top, pos, bytes))
  {
  }

  /** What a request comes to does not depend on what was written before it. */
  lemma {:induction false} EndMerged(m: Image, top: Image, attempts: seq<GetAttempt>, left: nat)
    requires |top| == |m|
    ensures var e := EndOf(top, attempts, left);
      EndOf(Merged(m, top), attempts, left) == e.(image := Merged(m, e.image))
    decreases left
  {
    if left != 0 {
      TakenMerged(m, top, 0, FirstOf(attempts).body);
      EndMerged(m, TakeAll(top, 0, FirstOf(attempts).body).image, RestOf(attempts), left - 1);
    }
  }

  lemma NothingMerged(m: Image)
    ensures Merged(m, Nothing(|m|)) == m
  {
  }

  lemma PromptEnds(m: Image, o: nat, round: nat, c: Config, remote: seq<byte>)
    requires PromptServer(c, remote) && o + |m| <= |remote|
    ensures m == [] || WellEnded(Answering(m, o, round, c), o, remote)
  {
    NothingMerged(m);
    EndMerged(m, Nothing(|m|), c.get(round, o, |m|), c.retries);
  }

  /** Where every request ends well, every part does. */
  lemma {:induction false} PromptSure(m: Image, o: nat, retryCount: nat, round: nat, c: Config, remote: seq<byte>)
    requires PromptServer(c, remote) && o + |m| <= |remote|
    ensures Sure(m, o, retryCount, round, c, remote)
    decreases TriesLeft(retryCount, c.retries), 1
  {
    var e := Answering(m, o, round, c);
    PromptEnds(m, o, round, c, remote);
    if e.result != 0 { PromptThen(e.image, o, e.code, e.pos, retryCount + e.remakes, round, c, remote); }
  }

  lemma {:induction false} PromptThen(m: Image, o: nat, code: int, pos: nat, retryCount: nat, round: nat, c: Config,
                                      remote: seq<byte>)
    requires PromptServer(c, remote) && pos <= |m| && o + |m| <= |remote|
    requires m == [] || (Repeated(code) && Laid(m, o, pos, remote))
    ensures SureThen(m, o, code, pos, retryCount, round, c, remote)
    decreases TriesLeft(retryCount, c.retries), 0
  {
    if Repeated(code) && retryCount < c.retries {
      PromptSure(m[pos..], o + pos, retryCount + 1, round + 1, c, remote);
    }
  }

  lemma PromptIsSure(c: Config, remote: seq<byte>)
    requires PromptServer(c, remote)
    ensures SureServer(c, remote)
  {
    forall o: nat, n: nat | o + n <= |remote| ensures Sure(Nothing(n), o, 0, 0, c, remote) {
      PromptSure(Nothing(n), o, 0, 0, c, remote);
    }
  }

  /** Where every part is answered with success at once, every part is sure. */
  lemma SmoothIsSure(c: Config, remote: seq<byte>)
    requires SmoothServer(c.get, c.retries)
    ensures SureServer(c, remote)
  {
    forall o: nat, n: nat | o + n <= |remote| ensures Sure(Nothing(n), o, 0, 0, c, remote) {
      if n == 0 {
        NothingSure(Nothing(n), o, 0, 0, c, remote);
      } else {
        SmoothPart(Zeros(n), o, c);
        NothingOver(Zeros(n));
        Answer(Zeros(n), Nothing(n), o, 0, c);
      }
    }
  }

  lemma {:induction false} NothingSure(m: Image, o: nat, retryCount: nat, round: nat, c: Config, remote: seq<byte>)
    requires m == [] && o <= |remote|
    ensures Sure(m, o, retryCount, round, c, remote)
    decreases TriesLeft(retryCount, c.retries)
  {
    var e := Answering(m, o, round, c);
    if Repeated(e.code) && retryCount + e.remakes < c.retries {
      NothingSure(e.image[e.pos..], o + e.pos, retryCount + e.remakes + 1, round + 1, c, remote);
    }
  }
}
