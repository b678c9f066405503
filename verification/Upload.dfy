/** Sending the whole local file: one PUT, or a multipart upload from one part size on. */
module Uploads {
  import opened Numbers
  import opened LocalFiles
  import opened Requests
  import opened Multipart

  /** What one try of a PUT meets: the room curl offers in each read (a read that fails is one of no
      bytes), and whether the server keeps the object if it has come in full. */
  datatype ObjectPut = ObjectPut(rooms: seq<nat>, keeps: bool)

  type ObjectAttempt = Attempt<ObjectPut>

  /** How an upload goes: whether it can be started, the id and what the requests for its parts meet,
      whether it can be completed; and what a single PUT of n bytes meets. */
  datatype Uploading = Uploading(base: string, starts: bool, uploadId: string, puts: nat -> Round, completes: bool,
                                 put: nat -> seq<ObjectAttempt>)

  predicate Proper(up: Uploading) { '=' !in up.base && '&' !in up.uploadId }

  /** Within the tries allowed there is a final answer, and it is a success of an object that came in full. */
  ghost predicate SmoothObject(attempts: seq<ObjectAttempt>, n: nat, retries: nat) {
    exists j: nat :: j < retries && SmoothTry(attempts, n, j)
  }

  ghost predicate SmoothTry(attempts: seq<ObjectAttempt>, n: nat, j: nat) {
    FinalAt(attempts, j) && Success(attempts[j].outcome) && n <= Sum(attempts[j].body.rooms)
  }

  /** How one try of the PUT of n bytes ends: one that has not come in full is not answered with success
      but times out. */
  function OutcomeOf(a: ObjectAttempt, n: nat): Outcome {
    if Sum(a.body.rooms) < n && Success(a.outcome) then Transient else a.outcome
  }

  /** The object has come in full, and the server keeps it, as it does whenever it answers with success. */
  predicate KeptBy(a: ObjectAttempt, n: nat) { n <= Sum(a.body.rooms) && (a.body.keeps || Success(a.outcome)) }

  function TryAt(attempts: seq<ObjectAttempt>, k: nat): ObjectAttempt {
    if k < |attempts| then attempts[k] else Attempt(ObjectPut([], false), Fatal)
  }

  /** The result of the tries from number k on, and whether one of them leaves the object on the server. */
  function PutFrom(attempts: seq<ObjectAttempt>, n: nat, k: nat, retries: nat): (int, bool)
    requires k <= retries
    decreases retries - k
  {
    if k == retries then (-EIO, false)
    else
      var a := TryAt(attempts, k);
      if Final(OutcomeOf(a, n)) then (ResultOf(OutcomeOf(a, n)), KeptBy(a, n))
      else
        var rest := PutFrom(attempts, n, k + 1, retries);
        (rest.0, KeptBy(a, n) || rest.1)
  }

  /** A result of 0 means that the server holds the object. */
  lemma {:induction false} SuccessKept(attempts: seq<ObjectAttempt>, n: nat, k: nat, retries: nat)
    requires k <= retries && PutFrom(attempts, n, k, retries).0 == 0
    ensures PutFrom(attempts, n, k, retries).1
    decreases retries - k
  {
    if k < retries && !Final(OutcomeOf(TryAt(attempts, k), n)) { SuccessKept(attempts, n, k + 1, retries); }
  }

  lemma {:induction false} SmoothPutSucceeds(attempts: seq<ObjectAttempt>, n: nat, k: nat, j: nat, retries: nat)
    requires k <= j < retries && SmoothTry(attempts, n, j)
    ensures PutFrom(attempts, n, k, retries).0 == 0
    decreases j - k
  {
    if k < j { SmoothPutSucceeds(attempts, n, k + 1, j, retries); }
  }

  predicate SentInParts(n: nat, m: nat, noMultipart: bool) { m <= n && !noMultipart }

  /** The upload of n bytes succeeds in the end. */
  ghost predicate SmoothUpload(up: Uploading, n: nat, m: nat, noMultipart: bool, retries: nat) {
    if SentInParts(n, m, noMultipart) then up.starts && up.completes && AlwaysSmooth(up.puts, m, retries)
    else SmoothObject(up.put(n), n, retries)
  }

  /** The PUT of a file, read as a stream. */
  class PutObject {
    const file: LocalFile
    var pos: nat
    var lastResponseCode: int

    constructor (file: LocalFile)
      ensures this.file == file && pos == 0 && lastResponseCode == -1
    {
      this.file, pos, lastResponseCode := file, 0, -1;
    }

    method Fread(room: nat) returns (out: seq<byte>)
      modifies `pos
      ensures out == Slice(file.data, old(pos), room) && pos == old(pos) + |out|
    {
      out := file.Pread(pos, room);
      pos := pos + |out|;
    }

    /** One attempt sends the front of the file; all of it if curl asks often enough. */
    method Send(rooms: seq<nat>) returns (sent: seq<byte>)
      requires pos == 0
      modifies `pos
      ensures sent == Slice(file.data, 0, Sum(rooms))
    {
      sent := [];
      var i := 0;
      while i < |rooms|
        invariant i <= |rooms| && pos == |sent|
        invariant sent == Slice(file.data, 0, Sum(rooms[..i]))
      {
        assert rooms[..i + 1] == rooms[..i] + [rooms[i]];
        SumLast(rooms[..i], rooms[i]);
        var out := Fread(rooms[i]);
        sent, i := sent + out, i + 1;
      }
      assert rooms[..i] == rooms;
    }

    /** Rewind the stream for another try. */
    method RemakeHandle()
      modifies this
      ensures pos == 0 && lastResponseCode == -1
    {
      pos, lastResponseCode := 0, -1;
    }

    /** One try. */
    method Perform(a: ObjectAttempt, held: seq<byte>) returns (outcome: Outcome, now: seq<byte>)
      requires pos == 0
      modifies `pos
      ensures outcome == OutcomeOf(a, |file.data|)
      ensures now == if KeptBy(a, |file.data|) then file.data else held
    {
      var sent := Send(a.body.rooms);
      if |sent| < |file.data| {
        return if Success(a.outcome) then Transient else a.outcome, held;
      }
      assert sent == file.data;
      return a.outcome, if a.body.keeps || Success(a.outcome) then sent else held;
    }

    /** Try the request until it gets a final answer, at most `retries` times. */
    method RequestPerform(attempts: seq<ObjectAttempt>, retries: nat, held: seq<byte>)
      returns (result: int, now: seq<byte>)
      requires pos == 0
      modifies this
      ensures var (r, kept) := PutFrom(attempts, |file.data|, 0, retries);
        result == r && now == if kept then file.data else held
    {
      var tries := 0;
      ghost var kept := false;
      now := held;
      while tries < retries
        invariant tries <= retries && pos == 0
        invariant var rest := PutFrom(attempts, |file.data|, tries, retries);
          PutFrom(attempts, |file.data|, 0, retries) == (rest.0, kept || rest.1)
        invariant now == if kept then file.data else held
      {
        var attempt := TryAt(attempts, tries);
        var outcome;
        outcome, now := Perform(attempt, now);
        lastResponseCode := CodeOf(outcome);
        kept := kept || KeptBy(attempt, |file.data|);
        if Final(outcome) {
          return ResultOf(outcome), now;
        }
        RemakeHandle();
        tries := tries + 1;
      }
      return -EIO, now;
    }
  }

  /** The upload of the local file: whatever becomes of it, the server holds what it held or the file, and
      a success means that it holds the file. */
  method Upload(file: LocalFile, held: seq<byte>, m: nat, noMultipart: bool, retries: nat, up: Uploading)
    returns (result: int, now: seq<byte>)
    requires 0 < m && Proper(up)
    ensures now == held || now == file.data
    ensures result == 0 ==> now == file.data
    ensures result != 0 && SentInParts(|file.data|, m, noMultipart) ==> now == held
    ensures !SentInParts(|file.data|, m, noMultipart) ==>
      var (r, kept) := PutFrom(up.put(|file.data|), |file.data|, 0, retries);
      result == r && now == if kept then file.data else held
    ensures SmoothUpload(up, |file.data|, m, noMultipart, retries) ==> result == 0
  {
    if m <= |file.data| && !noMultipart {
      if !up.starts {
        return -EIO, held;
      }
      var made, rounds;
      result, made, rounds :=
        ParallelMultipartUploadRequest(file, m, retries, up.base, up.uploadId, up.puts, up.completes);
      now := if made.Some? then made.value else held;
    } else {
      var curl := new PutObject(file);
      result, now := curl.RequestPerform(up.put(|file.data|), retries, held);
      if result == 0 { SuccessKept(up.put(|file.data|), |file.data|, 0, retries); }
      if SmoothObject(up.put(|file.data|), |file.data|, retries) {
        var j: nat :| j < retries && SmoothTry(up.put(|file.data|), |file.data|, j);
        SmoothPutSucceeds(up.put(|file.data|), |file.data|, 0, j, retries);
      }
    }
  }

  // ---------------------------------------------------------------------
  // A server that takes everything at once
  // ---------------------------------------------------------------------

  /** Uploads of any size work. */
  ghost predicate AlwaysUploads(up: Uploading, m: nat, retries: nat) {
    && Proper(up) && up.starts && up.completes && AlwaysSmooth(up.puts, m, retries)
    && forall n: nat :: SmoothObject(up.put(n), n, retries)
  }

  function TakingUpload(m: nat): Uploading {
    Uploading("", true, "", (round: nat) => (num: nat) => [Attempt(Put([m], [], true, "e", true), Response(200))], true,
              (n: nat) => [Attempt(ObjectPut([n], true), Response(200))])
  }

  lemma TakingWorks(m: nat, retries: nat)
    requires 0 < retries
    ensures AlwaysUploads(TakingUpload(m), m, retries)
  {
    var up := TakingUpload(m);
    forall k, num: nat ensures SmoothPut(up.puts(k)(num), m, retries) {
      assert Sum([m]) == m by { assert [m][1..] == []; }
      assert FinalAt(up.puts(k)(num), 0) && Whole(up.puts(k)(num)[0].body, m);
    }
    forall n: nat ensures SmoothObject(up.put(n), n, retries) {
      assert Sum([n]) == n by { assert [n][1..] == []; }
      assert SmoothTry(up.put(n), n, 0);
    }
  }

  /** A PUT that is carried out although none of its tries is answered: the upload counts as failed, but
      the server holds the file. */
  method KeptUnanswered() returns (result: int, now: seq<byte>)
    ensures result != 0 && now == [7]
  {
    var file := new LocalFile();
    var n := file.Pwrite([7], 0, 1);
    var lost := [Attempt(ObjectPut([1], true), Transient)];
    var curl := new PutObject(file);
    assert Sum([1]) == 1 by { assert [1][1..] == []; }
    result, now := curl.RequestPerform(lost, 1, []);
  }
}
