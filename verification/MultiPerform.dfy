/** The worker protocol of S3fsMultiCurl::MultiPerform: one main thread that starts a bounded number
    of workers, and workers that report themselves complete under a lock and give back a permit. */
module MultiPerform {

  /** A worker: at its transfer, inside the lock (before and after it has entered its id, after it has
      posted), out of the lock, gone. */
  datatype Phase = Working | Locked | Pushed | Posted | Unlocked | Exited

  datatype Main =
    | Waiting(i: nat)          // at sem.wait() for request i
    | Locking(i: nat)          // about to take the lock
    | Joining(i: nat, k: nat)  // in the lock, k completed workers joined
    | Creating(i: nat)         // at pthread_create
    | Draining(j: nat)         // taken back j permits
    | FinalLocking
    | FinalJoining(k: nat)
    | Returned

  datatype Owner = Nobody | MainThread | Worker(w: nat)

  datatype State = State(permits: nat, phases: seq<Phase>, completed: seq<nat>, joined: seq<nat>,
                         owner: Owner, main: Main, lost: nat)

  datatype Move = MainMove | CreateFails | WorkerMove(w: nat)

  /** n requests, N permits. */
  function Init(n: nat, N: nat): State {
    State(N, [], [], [], Nobody, if n == 0 then Draining(0) else Waiting(0), 0)
  }

  predicate CanJoin(s: State, k: nat) {
    k < |s.completed| ==> s.completed[k] < |s.phases| && s.phases[s.completed[k]] == Exited
  }

  predicate MainEnabled(s: State) {
    match s.main
    case Waiting(_) => 0 < s.permits
    case Locking(_) => s.owner == Nobody
    case Joining(_, k) => CanJoin(s, k)
    case Creating(_) => true
    case Draining(_) => 0 < s.permits
    case FinalLocking => s.owner == Nobody
    case FinalJoining(k) => CanJoin(s, k)
    case Returned => false
  }

  predicate Enabled(s: State, m: Move) {
    match m
    case MainMove => MainEnabled(s)
    case CreateFails => s.main.Creating?
    case WorkerMove(w) =>
      w < |s.phases| && s.phases[w] != Exited && (s.phases[w] == Working ==> s.owner == Nobody)
  }

  function AfterRequest(i: nat, n: nat): Main {
    if i + 1 < n then Waiting(i + 1) else Draining(0)
  }

  function MainApply(s: State, n: nat, N: nat): State
    requires MainEnabled(s)
  {
    match s.main
    case Waiting(i) => s.(permits := s.permits - 1, main := Locking(i))
    case Locking(i) => s.(owner := MainThread, main := Joining(i, 0))
    case Joining(i, k) =>
      if k < |s.completed| then s.(joined := s.joined + [s.completed[k]], main := Joining(i, k + 1))
      else s.(completed := [], owner := Nobody, main := Creating(i))
    case Creating(i) => s.(phases := s.phases + [Working], main := AfterRequest(i, n))
    case Draining(j) => s.(permits := s.permits - 1, main := if j + 1 < N then Draining(j + 1) else FinalLocking)
    case FinalLocking => s.(owner := MainThread, main := FinalJoining(0))
    case FinalJoining(k) =>
      if k < |s.completed| then s.(joined := s.joined + [s.completed[k]], main := FinalJoining(k + 1))
      else s.(completed := [], owner := Nobody, main := Returned)
  }

  function WorkerApply(s: State, w: nat): State
    requires Enabled(s, WorkerMove(w))
  {
    match s.phases[w]
    case Working => s.(phases := s.phases[w := Locked], owner := Worker(w))
    case Locked => s.(phases := s.phases[w := Pushed], completed := s.completed + [w])
    case Pushed => s.(phases := s.phases[w := Posted], permits := s.permits + 1)
    case Posted => s.(phases := s.phases[w := Unlocked], owner := Nobody)
    case Unlocked => s.(phases := s.phases[w := Exited])
  }

  function Apply(s: State, m: Move, n: nat, N: nat): State
    requires Enabled(s, m)
  {
    match m
    case MainMove => MainApply(s, n, N)
    case CreateFails => s.(main := Draining(0), lost := s.lost + 1)
    case WorkerMove(w) => WorkerApply(s, w)
  }

  // ---------------------------------------------------------------------
  // The invariant
  // ---------------------------------------------------------------------

  predicate HasPushed(p: Phase) { !p.Working? && !p.Locked? }
  predicate InLock(p: Phase) { p.Locked? || p.Pushed? || p.Posted? }
  predicate Unposted(p: Phase) { p.Working? || p.Locked? || p.Pushed? }

  function UnpostedCount(ps: seq<Phase>): nat {
    if ps == [] then 0 else UnpostedCount(ps[..|ps| - 1]) + (if Unposted(ps[|ps| - 1]) then 1 else 0)
  }

  /** Permits in the hands of the main thread. */
  function Held(m: Main, N: nat): nat {
    match m
    case Waiting(_) => 0
    case Draining(j) => j
    case FinalLocking => N
    case FinalJoining(_) => N
    case Returned => N
    case _ => 1
  }

  /** Completed workers that are still to be joined. */
  function Pending(s: State): seq<nat> {
    match s.main
    case Joining(_, k) => if k <= |s.completed| then s.completed[k..] else []
    case FinalJoining(k) => if k <= |s.completed| then s.completed[k..] else []
    case _ => s.completed
  }

  predicate NoDuplicates(s: seq<nat>) { forall i, j :: 0 <= i < j < |s| ==> s[i] != s[j] }

  predicate MainInLock(m: Main) { m.Joining? || m.FinalJoining? }

  /** Every permit is somewhere: free, with an unposted worker, with the main thread, or lost. */
  predicate Conserved(s: State, N: nat) {
    s.permits + UnpostedCount(s.phases) + Held(s.main, N) + s.lost == N
  }

  /** A worker is on record, joined or pending, exactly once from the moment it enters its id. */
  predicate Recorded(s: State) {
    var log := s.joined + Pending(s);
    && NoDuplicates(log)
    && (forall w :: w in log ==> w < |s.phases|)
    && (forall w :: 0 <= w < |s.phases| ==> (HasPushed(s.phases[w]) <==> w in log))
    && (forall w :: w in s.joined ==> w < |s.phases| && s.phases[w] == Exited)
  }

  predicate LockKept(s: State) {
    && (forall w :: 0 <= w < |s.phases| ==> (InLock(s.phases[w]) <==> s.owner == Worker(w)))
    && (s.owner.Worker? ==> s.owner.w < |s.phases|)
    && (s.owner == MainThread <==> MainInLock(s.main))
  }

  predicate MainOnTrack(s: State, n: nat, N: nat) {
    match s.main
    case Waiting(i) => i == |s.phases| < n && s.lost == 0
    case Locking(i) => i == |s.phases| < n && s.lost == 0
    case Joining(i, k) => i == |s.phases| < n && s.lost == 0 && k <= |s.completed|
    case Creating(i) => i == |s.phases| < n && s.lost == 0
    case Draining(j) => j < N && |s.phases| <= n && (s.lost == 0 ==> |s.phases| == n) && s.lost <= 1
    case FinalLocking => |s.phases| == n
    case FinalJoining(k) => |s.phases| == n && k <= |s.completed|
    case Returned => |s.phases| == n && s.completed == []
  }

  predicate Inv(s: State, n: nat, N: nat) {
    Conserved(s, N) && Recorded(s) && LockKept(s) && MainOnTrack(s, n, N)
  }

  lemma {:induction false} CountUpdate(ps: seq<Phase>, w: nat, p: Phase)
    requires w < |ps|
    ensures UnpostedCount(ps[w := p]) + (if Unposted(ps[w]) then 1 else 0)
         == UnpostedCount(ps) + (if Unposted(p) then 1 else 0)
  {
    var n := |ps| - 1;
    if w < n {
      assert ps[w := p][..n] == ps[..n][w := p];
      CountUpdate(ps[..n], w, p);
    } else {
      assert ps[w := p][..n] == ps[..n];
    }
  }

  lemma {:induction false} CountPositive(ps: seq<Phase>)
    ensures 0 < UnpostedCount(ps) <==> exists w :: 0 <= w < |ps| && Unposted(ps[w])
  {
    if ps != [] {
      var n := |ps| - 1;
      CountPositive(ps[..n]);
      if exists w :: 0 <= w < |ps| && Unposted(ps[w]) {
        var w :| 0 <= w < |ps| && Unposted(ps[w]);
        assert w < n ==> ps[..n][w] == ps[w];
      }
    }
  }

  lemma InitHolds(n: nat, N: nat)
    requires 1 <= N
    ensures Inv(Init(n, N), n, N)
  {
  }

  lemma WorkerRecorded(s: State, w: nat, n: nat, N: nat)
    requires Inv(s, n, N) && Enabled(s, WorkerMove(w))
    ensures Recorded(WorkerApply(s, w))
  {
    var t := WorkerApply(s, w);
    if s.phases[w] == Locked {
      var log, log' := s.joined + Pending(s), t.joined + Pending(t);
      assert log' == log + [w];
      assert w !in log;
    } else {
      assert Pending(t) == Pending(s);
    }
  }

  lemma WorkerLock(s: State, w: nat, n: nat, N: nat)
    requires Inv(s, n, N) && Enabled(s, WorkerMove(w))
    ensures LockKept(WorkerApply(s, w))
  {
  }

  lemma WorkerKeeps(s: State, w: nat, n: nat, N: nat)
    requires Inv(s, n, N) && Enabled(s, WorkerMove(w))
    ensures Inv(WorkerApply(s, w), n, N)
  {
    WorkerRecorded(s, w, n, N);
    WorkerLock(s, w, n, N);
    WorkerConserved(s, w, n, N);
    WorkerMainOnTrack(s, w, n, N);
  }

  lemma WorkerConserved(s: State, w: nat, n: nat, N: nat)
    requires Conserved(s, N) && Enabled(s, WorkerMove(w))
    ensures Conserved(WorkerApply(s, w), N)
  {
    CountUpdate(s.phases, w, WorkerApply(s, w).phases[w]);
  }

  lemma WorkerMainOnTrack(s: State, w: nat, n: nat, N: nat)
    requires Conserved(s, N) && MainOnTrack(s, n, N) && Enabled(s, WorkerMove(w))
    ensures MainOnTrack(WorkerApply(s, w), n, N)
  {
    CountPositive(s.phases);
  }

  lemma MainRecorded(s: State, n: nat, N: nat)
    requires Inv(s, n, N) && MainEnabled(s)
    ensures Recorded(MainApply(s, n, N))
  {
    var t := MainApply(s, n, N);
    if s.main.Creating? {
      assert Pending(t) == Pending(s);
      assert |s.phases| !in s.joined + Pending(s);
    } else {
      assert t.joined + Pending(t) == s.joined + Pending(s);
    }
  }

  lemma CountOneMore(ps: seq<Phase>)
    ensures UnpostedCount(ps + [Working]) == UnpostedCount(ps) + 1
  {
    assert (ps + [Working])[..|ps|] == ps;
  }

  /** The main thread passes permits on: a new worker takes the one it holds. */
  lemma MainConserved(s: State, t: State, n: nat, N: nat, before: nat, after: nat)
    requires MainOnTrack(s, n, N) && MainEnabled(s) && t == MainApply(s, n, N)
    requires after == before + (if s.main.Creating? then 1 else 0)
    requires s.permits + before + Held(s.main, N) + s.lost == N
    ensures t.permits + after + Held(t.main, N) + t.lost == N
  {
  }

  lemma MainLock(s: State, n: nat, N: nat)
    requires LockKept(s) && MainEnabled(s)
    ensures LockKept(MainApply(s, n, N))
  {
  }

  lemma MainStaysOnTrack(s: State, n: nat, N: nat)
    requires Conserved(s, N) && MainOnTrack(s, n, N) && MainEnabled(s)
    ensures MainOnTrack(MainApply(s, n, N), n, N)
  {
  }

  lemma MainKeeps(s: State, n: nat, N: nat)
    requires Inv(s, n, N) && MainEnabled(s)
    ensures Inv(MainApply(s, n, N), n, N)
  {
    MainRecorded(s, n, N);
    CountOneMore(s.phases);
    MainConserved(s, MainApply(s, n, N), n, N, UnpostedCount(s.phases), UnpostedCount(MainApply(s, n, N).phases));
    MainLock(s, n, N);
    MainStaysOnTrack(s, n, N);
  }

  lemma StepKeeps(s: State, m: Move, n: nat, N: nat)
    requires Inv(s, n, N) && Enabled(s, m)
    ensures Inv(Apply(s, m, n, N), n, N)
  {
    match m
    case MainMove => MainKeeps(s, n, N);
    case CreateFails =>
    case WorkerMove(w) => WorkerKeeps(s, w, n, N);
  }

  // ---------------------------------------------------------------------
  // All schedules
  // ---------------------------------------------------------------------

  /** The states a schedule runs through; every move in it is possible when it is made. */
  ghost predicate Schedule(trace: seq<State>, moves: seq<Move>, n: nat, N: nat) {
    && |trace| == |moves| + 1
    && trace[0] == Init(n, N)
    && forall k :: 0 <= k < |moves| ==> Enabled(trace[k], moves[k]) && trace[k + 1] == Apply(trace[k], moves[k], n, N)
  }

  ghost predicate Stuck(s: State) { forall m :: !Enabled(s, m) }

  lemma {:induction false} ScheduleInv(trace: seq<State>, moves: seq<Move>, n: nat, N: nat, k: nat)
    requires 1 <= N && Schedule(trace, moves, n, N) && k < |trace|
    ensures Inv(trace[k], n, N)
  {
    if k == 0 {
      InitHolds(n, N);
    } else {
      ScheduleInv(trace, moves, n, N, k - 1);
      StepKeeps(trace[k - 1], moves[k - 1], n, N);
    }
  }

  /** At every moment of every schedule at most N workers have not posted, and the main thread is past
      its draining loop only when every worker has posted. */
  lemma Bounded(trace: seq<State>, moves: seq<Move>, n: nat, N: nat, k: nat)
    requires 1 <= N && Schedule(trace, moves, n, N) && k < |trace|
    ensures UnpostedCount(trace[k].phases) <= N
    ensures trace[k].main.FinalLocking? || trace[k].main.FinalJoining? || trace[k].main.Returned? ==>
      |trace[k].phases| == n && forall w :: 0 <= w < n ==> !Unposted(trace[k].phases[w])
  {
    ScheduleInv(trace, moves, n, N, k);
    CountPositive(trace[k].phases);
  }

  /** A state of the invariant in which nobody can move: either the call has returned and every worker
      has been joined exactly once, or a failed thread creation has lost a permit. */
  lemma StuckMeans(s: State, n: nat, N: nat)
    requires 1 <= N && Inv(s, n, N) && Stuck(s)
    ensures s.lost == 0 ==> s.main == Returned && NoDuplicates(s.joined) && forall w :: w in s.joined <==> 0 <= w < n
    ensures s.lost != 0 ==> s.main == Draining(N - 1)
  {
    assert !Enabled(s, MainMove) && !Enabled(s, CreateFails);
    if s.owner.Worker? {
      LockOwnerMoves(s, n, N);
      assert false;
    }
    forall w | 0 <= w < |s.phases|
      ensures s.phases[w] == Exited || (s.phases[w] == Working && s.owner == MainThread)
    {
      assert !Enabled(s, WorkerMove(w));
    }
    CountPositive(s.phases);
    if s.owner == MainThread {
      MainInLockMoves(s, n, N);
      assert false;
    }
    if s.main == Returned {
      assert s.joined + Pending(s) == s.joined;
    }
  }

  lemma LockOwnerMoves(s: State, n: nat, N: nat)
    requires Inv(s, n, N) && s.owner.Worker?
    ensures Enabled(s, WorkerMove(s.owner.w))
  {
  }

  /** The workers on record left the lock before the main thread could take it, so each join ends. */
  lemma MainInLockMoves(s: State, n: nat, N: nat)
    requires Inv(s, n, N) && s.owner == MainThread
    requires forall w :: 0 <= w < |s.phases| ==> s.phases[w] == Exited || s.phases[w] == Working
    ensures Enabled(s, MainMove)
  {
    var k := s.main.k;
    if k < |s.completed| {
      assert s.completed[k] == Pending(s)[0];
      assert s.completed[k] in s.joined + Pending(s);
    }
  }

  function Rest(p: Phase): nat {
    match p
    case Working => 6
    case Locked => 5
    case Pushed => 3
    case Posted => 2
    case Unlocked => 1
    case Exited => 0
  }

  function RestSum(ps: seq<Phase>): nat {
    if ps == [] then 0 else RestSum(ps[..|ps| - 1]) + Rest(ps[|ps| - 1])
  }

  function MainRest(m: Main, N: nat): int {
    match m
    case Waiting(_) => N + 8
    case Locking(_) => N + 7
    case Joining(_, _) => N + 6
    case Creating(_) => N + 5
    case Draining(j) => N - j + 2
    case FinalLocking => 2
    case FinalJoining(_) => 1
    case Returned => 0
  }

  /** What is left to do; every move, whoever makes it, leaves less. */
  function Measure(s: State, n: nat, N: nat): int {
    10 * (n - |s.phases|) + RestSum(s.phases) + |Pending(s)| + MainRest(s.main, N)
  }

  lemma {:induction false} RestUpdate(ps: seq<Phase>, w: nat, p: Phase)
    requires w < |ps|
    ensures RestSum(ps[w := p]) + Rest(ps[w]) == RestSum(ps) + Rest(p)
  {
    var n := |ps| - 1;
    if w < n {
      assert ps[w := p][..n] == ps[..n][w := p];
      RestUpdate(ps[..n], w, p);
    } else {
      assert ps[w := p][..n] == ps[..n];
    }
  }

  lemma MeasureDrops(s: State, m: Move, n: nat, N: nat)
    requires 1 <= N && Inv(s, n, N) && Enabled(s, m)
    ensures 0 <= Measure(Apply(s, m, n, N), n, N) < Measure(s, n, N)
  {
    StepKeeps(s, m, n, N);
    MeasureNotNegative(Apply(s, m, n, N), n, N);
    match m
    case WorkerMove(w) => WorkerMeasure(s, w, n, N);
    case MainMove => MainMeasure(s, n, N);
    case CreateFails =>
  }

  lemma WorkerMeasure(s: State, w: nat, n: nat, N: nat)
    requires MainOnTrack(s, n, N) && Enabled(s, WorkerMove(w))
    ensures Measure(WorkerApply(s, w), n, N) < Measure(s, n, N)
  {
    var t := WorkerApply(s, w);
    RestUpdate(s.phases, w, t.phases[w]);
    assert |Pending(t)| <= |Pending(s)| + (if s.phases[w] == Locked then 1 else 0);
  }

  lemma MainMeasure(s: State, n: nat, N: nat)
    requires 1 <= N && MainOnTrack(s, n, N) && MainEnabled(s)
    ensures Measure(MainApply(s, n, N), n, N) < Measure(s, n, N)
  {
    var t := MainApply(s, n, N);
    if s.main.Creating? {
      assert t.phases[..|s.phases|] == s.phases;
    }
  }

  lemma MeasureNotNegative(s: State, n: nat, N: nat)
    requires MainOnTrack(s, n, N)
    ensures 0 <= Measure(s, n, N)
  {
  }

  lemma {:induction false} ScheduleMeasure(trace: seq<State>, moves: seq<Move>, n: nat, N: nat, k: nat)
    requires 1 <= N && Schedule(trace, moves, n, N) && k < |trace|
    ensures k <= Measure(Init(n, N), n, N) - Measure(trace[k], n, N) && 0 <= Measure(trace[k], n, N)
  {
    if k != 0 {
      ScheduleMeasure(trace, moves, n, N, k - 1);
      ScheduleInv(trace, moves, n, N, k - 1);
      MeasureDrops(trace[k - 1], moves[k - 1], n, N);
    }
  }

  /** Every schedule, however the threads interleave, ends within a fixed number of moves; when it can
      go no further and every thread was created, the call has returned with each of the n workers
      joined exactly once.  It fails to return exactly when a thread creation failed. */
  lemma MultiPerformTerminates(trace: seq<State>, moves: seq<Move>, n: nat, N: nat)
    requires 1 <= N && Schedule(trace, moves, n, N)
    ensures |moves| <= 10 * n + N + 8
    ensures var last := trace[|moves|];
      Stuck(last) ==>
        && (last.main == Returned <==> CreateFails !in moves)
        && (last.main == Returned ==> NoDuplicates(last.joined) && forall w :: w in last.joined <==> 0 <= w < n)
  {
    ScheduleMeasure(trace, moves, n, N, |moves|);
    ScheduleInv(trace, moves, n, N, |moves|);
    LostCounts(trace, moves, n, N, |moves|);
    assert moves[..|moves|] == moves;
    if Stuck(trace[|moves|]) {
      StuckMeans(trace[|moves|], n, N);
    }
  }

  lemma {:induction false} LostCounts(trace: seq<State>, moves: seq<Move>, n: nat, N: nat, k: nat)
    requires Schedule(trace, moves, n, N) && k < |trace|
    ensures trace[k].lost == 0 <==> CreateFails !in moves[..k]
  {
    if k != 0 {
      LostCounts(trace, moves, n, N, k - 1);
      assert moves[..k] == moves[..k - 1] + [moves[k - 1]];
    }
  }
}
