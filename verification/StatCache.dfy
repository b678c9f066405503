/** The cache of object attributes: bounded, oldest entries go first. */
module StatCaches {

  /** cache_date, hit_count and the pin counter of an entry. */
  datatype Entry = Entry(sec: int, nsec: int, hits: nat, notruncate: nat)

  type Cache = map<string, Entry>

  /** CompareStatCacheTime. */
  function CompareTime(a: Entry, b: Entry): int {
    if a.sec < b.sec then -1
    else if a.sec > b.sec then 1
    else if a.nsec < b.nsec then -1
    else if a.nsec > b.nsec then 1
    else 0
  }

  /** sort_statiterlist: is a to be evicted before b? */
  predicate Before(a: Entry, b: Entry) {
    var result := CompareTime(a, b);
    result < 0 || (result == 0 && a.hits < b.hits)
  }

  /** The eviction order is a strict weak order, as std::sort demands. */
  lemma BeforeIsStrictWeakOrder(a: Entry, b: Entry, c: Entry)
    ensures !Before(a, a)
    ensures Before(a, b) && Before(b, c) ==> Before(a, c)
    ensures Before(a, b) ==> Before(a, c) || Before(c, b)
  {
  }

  function NotAfter(m: Cache, k: string, l: string): bool
    requires k in m && l in m
  {
    !Before(m[l], m[k])
  }

  predicate KeysOf(ks: seq<string>, m: Cache) { forall k :: k in ks ==> k in m }

  predicate Ascending(ks: seq<string>, m: Cache)
    requires KeysOf(ks, m)
  {
    forall i, j :: 0 <= i < j < |ks| ==> NotAfter(m, ks[i], ks[j])
  }

  /** Put k behind everything in ks that is not after it. */
  function Insert(ks: seq<string>, k: string, m: Cache): seq<string>
    requires KeysOf(ks, m) && k in m
  {
    if ks == [] then [k]
    else if NotAfter(m, ks[|ks| - 1], k) then ks + [k]
    else Insert(ks[..|ks| - 1], k, m) + [ks[|ks| - 1]]
  }

  lemma {:induction false} InsertMembers(ks: seq<string>, k: string, m: Cache)
    requires KeysOf(ks, m) && k in m
    ensures |Insert(ks, k, m)| == |ks| + 1
    ensures forall x :: x in Insert(ks, k, m) <==> x == k || x in ks
  {
    if ks != [] && !NotAfter(m, ks[|ks| - 1], k) {
      var n := |ks| - 1;
      InsertMembers(ks[..n], k, m);
      assert ks == ks[..n] + [ks[n]];
    }
  }

  lemma SnocAscending(ks: seq<string>, k: string, m: Cache)
    requires KeysOf(ks, m) && k in m && Ascending(ks, m)
    requires forall x :: x in ks ==> NotAfter(m, x, k)
    ensures Ascending(ks + [k], m)
  {
  }

  lemma {:induction false} InsertSorts(ks: seq<string>, k: string, m: Cache)
    requires KeysOf(ks, m) && k in m && Ascending(ks, m)
    ensures KeysOf(Insert(ks, k, m), m) && Ascending(Insert(ks, k, m), m)
  {
    InsertMembers(ks, k, m);
    if ks == [] {
    } else {
      var n := |ks| - 1;
      var last := ks[n];
      assert ks == ks[..n] + [last];
      assert forall x :: x in ks[..n] ==> NotAfter(m, x, last);
      if NotAfter(m, last, k) {
        SnocAscending(ks, k, m);
      } else {
        InsertSorts(ks[..n], k, m);
        InsertMembers(ks[..n], k, m);
        SnocAscending(Insert(ks[..n], k, m), last, m);
      }
    }
  }

  /** The candidates after the keys ks, in the order the map yields them: each key is added and
      sorted in, and the last candidate falls out if there are more than wanted.  A pinned entry
      lowers the number wanted, but is added all the same. */
  function Candidates(ks: seq<string>, m: Cache, count: nat): (iters: seq<string>)
    requires KeysOf(ks, m)
    ensures KeysOf(iters, m)
  {
    if ks == [] then []
    else WithNext(Candidates(ks[..|ks| - 1], m, count), ks[|ks| - 1], m, Wanted(ks, m, count))
  }

  /** How many candidates are still wanted after the keys ks. */
  function Wanted(ks: seq<string>, m: Cache, count: nat): nat
    requires KeysOf(ks, m)
  {
    if ks == [] then count
    else
      var left := Wanted(ks[..|ks| - 1], m, count);
      if 0 < m[ks[|ks| - 1]].notruncate && 0 < left then left - 1 else left
  }

  lemma CandidatesNext(ks: seq<string>, i: nat, m: Cache, count: nat)
    requires KeysOf(ks, m) && i < |ks|
    ensures KeysOf(ks[..i], m) && KeysOf(ks[..i + 1], m) && ks[i] in m
    ensures var left := Wanted(ks[..i], m, count);
      && Wanted(ks[..i + 1], m, count) == (if 0 < m[ks[i]].notruncate && 0 < left then left - 1 else left)
      && Candidates(ks[..i + 1], m, count)
           == WithNext(Candidates(ks[..i], m, count), ks[i], m, Wanted(ks[..i + 1], m, count))
  {
    assert ks[i] in ks;
    assert ks[..i + 1][..i] == ks[..i];
  }

  /** How many candidates there are after the keys ks: one more for each key as long as so many are
      wanted, and then no more. */
  function Limit(ks: seq<string>, m: Cache, count: nat): (n: nat)
    requires KeysOf(ks, m)
    ensures n <= |ks|
  {
    if ks == [] then 0
    else
      var n := Limit(ks[..|ks| - 1], m, count);
      if n + 1 <= Wanted(ks, m, count) then n + 1 else n
  }

  function PinnedKeys(m: Cache): set<string> { set k | k in m && 0 < m[k].notruncate }

  /** The limit is reached by all keys or by as many as are wanted, and never exceeds the number asked for. */
  lemma {:induction false} LimitReached(ks: seq<string>, m: Cache, count: nat)
    requires KeysOf(ks, m)
    ensures Limit(ks, m, count) == |ks| || Wanted(ks, m, count) <= Limit(ks, m, count)
    ensures Limit(ks, m, count) <= count && Wanted(ks, m, count) <= count
  {
    if ks != [] {
      LimitReached(ks[..|ks| - 1], m, count);
    }
  }

  /** Each pinned key lowers the number wanted by at most one. */
  lemma {:induction false} WantedBound(ks: seq<string>, m: Cache, count: nat)
    requires KeysOf(ks, m) && Distinct(ks)
    ensures count <= Wanted(ks, m, count) + |PinnedKeys(m) * ToSet(ks)|
  {
    if ks != [] {
      WithoutLast(ks, m);
      WantedBound(ks[..|ks| - 1], m, count);
      PinsNext(ks, PinnedKeys(m));
    }
  }

  /** How many of the keys ks are pinned. */
  function PinsIn(ks: seq<string>, m: Cache): nat
    requires KeysOf(ks, m)
  {
    if ks == [] then 0 else PinsIn(ks[..|ks| - 1], m) + (if 0 < m[ks[|ks| - 1]].notruncate then 1 else 0)
  }

  lemma {:induction false} WantedIs(ks: seq<string>, m: Cache, count: nat)
    requires KeysOf(ks, m)
    ensures Wanted(ks, m, count) == if PinsIn(ks, m) <= count then count - PinsIn(ks, m) else 0
  {
    if ks != [] {
      WantedIs(ks[..|ks| - 1], m, count);
    }
  }

  /** The first i keys and the pinned ones among them, counted once more, are within the number asked for. */
  predicate Fits(ks: seq<string>, m: Cache, count: nat, i: nat)
    requires KeysOf(ks, m) && i <= |ks|
  {
    i + PinsIn(ks[..i], m) <= count
  }

  /** The limit is the largest i of which that is true. */
  lemma {:induction false} LimitIs(ks: seq<string>, m: Cache, count: nat)
    requires KeysOf(ks, m)
    ensures forall i: nat :: i <= |ks| ==> (i <= Limit(ks, m, count) <==> Fits(ks, m, count, i))
  {
    if ks != [] {
      var before := ks[..|ks| - 1];
      LimitIs(before, m, count);
      LimitReached(before, m, count);
      WantedIs(ks, m, count);
      forall i: nat | i <= |ks| ensures i <= Limit(ks, m, count) <==> Fits(ks, m, count, i) {
        if i < |ks| {
          assert before[..i] == ks[..i];
          assert Fits(before, m, count, i) <==> Fits(ks, m, count, i);
        } else {
          assert ks[..i] == ks && before[..i - 1] == before;
          assert Fits(before, m, count, i - 1) <==> i - 1 + PinsIn(before, m) <= count;
        }
      }
    }
  }

  lemma PinsNext(ks: seq<string>, pins: set<string>)
    requires ks != [] && Distinct(ks)
    ensures var n := |ks| - 1;
      |pins * ToSet(ks)| == |pins * ToSet(ks[..n])| + (if ks[n] in pins then 1 else 0)
  {
    var before, k := ks[..|ks| - 1], ks[|ks| - 1];
    assert ks == before + [k] && k !in ToSet(before);
    assert pins * ToSet(ks) == pins * ToSet(before) + (if k in pins then {k} else {});
  }

  /** One more key is sorted in; if there are then more than wanted, the last one falls out. */
  function WithNext(iters: seq<string>, k: string, m: Cache, wanted: nat): (next: seq<string>)
    requires KeysOf(iters, m) && k in m
    ensures KeysOf(next, m)
  {
    var more := Insert(iters, k, m);
    InsertMembers(iters, k, m);
    if wanted < |more| then more[..|more| - 1] else more
  }

  predicate Distinct(ks: seq<string>) { forall i, j :: 0 <= i < j < |ks| ==> ks[i] != ks[j] }

  /** iters is n of the keys ks, in order, none of them after any key left out. */
  ghost predicate AreOldest(iters: seq<string>, ks: seq<string>, m: Cache, n: nat)
    requires KeysOf(ks, m)
  {
    && |iters| == n && Distinct(iters) && KeysOf(iters, m) && Ascending(iters, m)
    && (forall k :: k in iters ==> k in ks)
    && (forall k, l :: k in iters && l in ks && l !in iters ==> NotAfter(m, k, l))
  }

  /** The candidates are the `Limit` oldest of all keys seen so far, pinned ones included: none of them
      comes after any key left out. */
  lemma {:induction false} OldestAreCandidates(ks: seq<string>, m: Cache, count: nat)
    requires KeysOf(ks, m) && Distinct(ks)
    ensures AreOldest(Candidates(ks, m, count), ks, m, Limit(ks, m, count))
  {
    if ks != [] {
      var before, k := ks[..|ks| - 1], ks[|ks| - 1];
      WithoutLast(ks, m);
      OldestAreCandidates(before, m, count);
      LimitReached(before, m, count);
      NextCandidate(before, Candidates(before, m, count), k, m, Wanted(ks, m, count), Limit(before, m, count));
    }
  }

  lemma WithoutLast(ks: seq<string>, m: Cache)
    requires Distinct(ks) && ks != [] && KeysOf(ks, m)
    ensures var before, k := ks[..|ks| - 1], ks[|ks| - 1];
      Distinct(before) && k !in before && KeysOf(before, m) && k in m && ks == before + [k]
  {
    assert ks[|ks| - 1] in ks;
  }

  lemma NextCandidate(seen: seq<string>, iters: seq<string>, k: string, m: Cache, wanted: nat, n: nat)
    requires KeysOf(seen, m) && k in m && k !in seen && Distinct(seen)
    requires AreOldest(iters, seen, m, n) && (n == |seen| || wanted < n + 1)
    ensures AreOldest(WithNext(iters, k, m, wanted), seen + [k], m, if n + 1 <= wanted then n + 1 else n)
  {
    InsertSorts(iters, k, m);
    InsertMembers(iters, k, m);
    var more := Insert(iters, k, m);
    InsertDistinct(iters, k, m);
    var next := WithNext(iters, k, m, wanted);
    var last := more[|more| - 1];
    forall x, y | x in next && y in seen + [k] && y !in next
      ensures NotAfter(m, x, y)
    {
      if wanted < |more| {
        assert NotAfter(m, x, last);
        if y != last {
          assert y !in more;
          assert x in iters || x == k;
          assert last in iters || last == k;
        }
      } else {
        AllSeen(seen, iters);
      }
    }
  }

  lemma SnocDistinct(ks: seq<string>, k: string)
    requires Distinct(ks) && k !in ks
    ensures Distinct(ks + [k])
  {
  }

  lemma {:induction false} InsertDistinct(ks: seq<string>, k: string, m: Cache)
    requires KeysOf(ks, m) && k in m && Distinct(ks) && k !in ks
    ensures Distinct(Insert(ks, k, m))
  {
    if ks != [] && !NotAfter(m, ks[|ks| - 1], k) {
      var n := |ks| - 1;
      assert ks == ks[..n] + [ks[n]];
      InsertDistinct(ks[..n], k, m);
      InsertMembers(ks[..n], k, m);
      assert ks[n] !in ks[..n];
      SnocDistinct(Insert(ks[..n], k, m), ks[n]);
    } else {
      SnocDistinct(ks, k);
    }
  }

  function ToSet(ks: seq<string>): set<string> { set k | k in ks }

  lemma {:induction false} DistinctSize(ks: seq<string>)
    requires Distinct(ks)
    ensures |ToSet(ks)| == |ks|
  {
    if ks != [] {
      var n := |ks| - 1;
      DistinctSize(ks[..n]);
      assert ks == ks[..n] + [ks[n]];
      assert ToSet(ks) == ToSet(ks[..n]) + {ks[n]};
    }
  }

  /** As many distinct keys as there are keys: all of them. */
  lemma AllSeen(seen: seq<string>, iters: seq<string>)
    requires Distinct(seen) && Distinct(iters) && |iters| == |seen| && forall x :: x in iters ==> x in seen
    ensures forall x :: x in seen ==> x in iters
  {
    DistinctSize(seen);
    DistinctSize(iters);
    assert ToSet(iters) <= ToSet(seen);
    SubsetSameSize(ToSet(iters), ToSet(seen));
    forall x | x in seen ensures x in iters { assert x in ToSet(seen); }
  }

  lemma SubsetSameSize(a: set<string>, b: set<string>)
    requires a <= b && |a| == |b|
    ensures a == b
  {
    if x :| x in b && x !in a {
      assert a <= b - {x};
      SubsetSize(a, b - {x});
    }
  }

  lemma {:induction false} SubsetSize(a: set<string>, b: set<string>)
    requires a <= b
    ensures |a| <= |b|
    decreases a
  {
    if x :| x in a {
      SubsetSize(a - {x}, b - {x});
    }
  }

  function Earlier(m: Cache, k: string): set<string>
    requires k in m
  {
    set l | l in m && Before(m[l], m[k])
  }

  /** The same with the keys of the same age, k among them. */
  function NotLater(m: Cache, k: string): set<string>
    requires k in m
  {
    set l | l in m && NotAfter(m, l, k)
  }

  /** The keys of a cache, each once. */
  predicate Lists(ks: seq<string>, m: Cache) {
    Distinct(ks) && KeysOf(ks, m) && |ks| == |m| && forall k :: k in m ==> k in ks
  }

  /** A key is a candidate only if fewer than `Limit` keys come before it, and surely is one if no more
      than `Limit` do not come after it.  Whether it is pinned makes no difference. */
  lemma CandidateMeans(ks: seq<string>, m: Cache, count: nat, k: string)
    requires Lists(ks, m) && k in m
    ensures k in Candidates(ks, m, count) ==> |Earlier(m, k)| < Limit(ks, m, count)
    ensures |NotLater(m, k)| <= Limit(ks, m, count) ==> k in Candidates(ks, m, count)
  {
    var iters := Candidates(ks, m, count);
    OldestAreCandidates(ks, m, count);
    DistinctSize(iters);
    if k in iters {
      forall l | l in Earlier(m, k) ensures l in iters { assert l !in iters ==> NotAfter(m, k, l); }
      assert Earlier(m, k) <= ToSet(iters) - {k};
      SubsetSize(Earlier(m, k), ToSet(iters) - {k});
    } else {
      forall l | l in iters ensures l in NotLater(m, k) { assert NotAfter(m, l, k); }
      assert ToSet(iters) <= NotLater(m, k) - {k} && k in NotLater(m, k);
      SubsetSize(ToSet(iters), NotLater(m, k) - {k});
    }
  }

  /** No two entries have the same age. */
  ghost predicate NoTies(m: Cache) {
    forall k, l :: k in m && l in m && k != l ==> Before(m[k], m[l]) || Before(m[l], m[k])
  }

  lemma CandidateExactly(ks: seq<string>, m: Cache, count: nat, k: string)
    requires Lists(ks, m) && NoTies(m) && k in m
    ensures k in Candidates(ks, m, count) <==> |Earlier(m, k)| < Limit(ks, m, count)
  {
    CandidateMeans(ks, m, count, k);
    NotLaterSize(m, k);
  }

  lemma NotLaterSize(m: Cache, k: string)
    requires NoTies(m) && k in m
    ensures |NotLater(m, k)| == |Earlier(m, k)| + 1
  {
    assert NotLater(m, k) == Earlier(m, k) + {k};
  }

  /** The pinned keys among these. */
  function PinnedAmong(m: Cache, iters: seq<string>): set<string> { set k | k in PinnedKeys(m) && k in iters }

  /** The pinned keys with fewer than n entries before them. */
  function PinnedEarly(m: Cache, n: nat): set<string> { set k | k in PinnedKeys(m) && |Earlier(m, k)| < n }

  /** These pinned entries are lost and no others: those with fewer than `Limit` entries before them. */
  lemma PinnedEntriesLost(ks: seq<string>, m: Cache, count: nat)
    requires Lists(ks, m) && NoTies(m)
    ensures PinnedAmong(m, Candidates(ks, m, count)) == PinnedEarly(m, Limit(ks, m, count))
  {
    var iters, n := Candidates(ks, m, count), Limit(ks, m, count);
    forall k ensures k in PinnedAmong(m, iters) <==> k in PinnedEarly(m, n) {
      if k in m { CandidateExactly(ks, m, count, k); }
    }
  }

  /** It happens: with room for one, a pinned old entry goes and the newer one stays. */
  lemma PinnedEntryEvicted()
    ensures var m: Cache := map["a" := Entry(1, 0, 0, 1), "b" := Entry(2, 0, 0, 0)];
      Candidates(["a", "b"], m, |m| - 1 + 1) == ["a"]
  {
    var m: Cache := map["a" := Entry(1, 0, 0, 1), "b" := Entry(2, 0, 0, 0)];
    assert m.Keys == {"a", "b"} && |m| == 2;
    var ks := ["a", "b"];
    assert ks[..1] == ["a"] && ks[..1][..0] == [];
    assert Insert([], "a", m) == ["a"];
    assert Candidates(["a"], m, 2) == ["a"] && Wanted(["a"], m, 2) == 1;
    assert Insert(["a"], "b", m) == ["a", "b"];
  }

  // ---------------------------------------------------------------------
  // The cache
  // ---------------------------------------------------------------------

  predicate Expired(e: Entry, expire: int, now: int) {
    e.notruncate == 0 && e.sec + expire < now
  }

  function Unexpired(m: Cache, expire: int, now: int): Cache {
    map k | k in m && !Expired(m[k], expire, now) :: m[k]
  }

  function Without(m: Cache, ks: set<string>): Cache {
    map k | k in m && k !in ks :: m[k]
  }

  /** The key of the same path with or without the slash at its end. */
  function Twin(key: string): string {
    if key != "" && key[|key| - 1] == '/' then key[..|key| - 1] else key + "/"
  }

  function DelKeys(key: string): set<string> {
    if key != "" && key != "/" then {key, Twin(key)} else {key}
  }

  ghost predicate Part(rest: Cache, m: Cache) { forall k :: k in rest ==> k in m && rest[k] == m[k] }

  /** Part of m is left, and nothing that went comes after anything that stayed. */
  ghost predicate OldestGone(m: Cache, rest: Cache) {
    Part(rest, m) && forall k, l :: k in m && k !in rest && l in rest ==> NotAfter(m, k, l)
  }

  /** rest is n entries fewer, and only the oldest are gone. */
  ghost predicate Remains(m: Cache, rest: Cache, n: nat) { |rest| == |m| - n && OldestGone(m, rest) }

  /** Erasing the candidates leaves the rest, none of it before any key that went. */
  lemma OldestErased(keys: seq<string>, m: Cache, count: nat)
    requires Lists(keys, m)
    ensures Remains(m, Without(m, ToSet(Candidates(keys, m, count))), Limit(keys, m, count))
  {
    var iters := Candidates(keys, m, count);
    OldestAreCandidates(keys, m, count);
    ErasedSize(m, iters);
  }

  /** rest is m without the entries that step 3 erases if it visits the keys in this order. */
  ghost predicate ShrunkBy(m: Cache, rest: Cache, cacheSize: nat, keys: seq<string>) {
    cacheSize <= |m| && Lists(keys, m) && Remains(m, rest, Limit(keys, m, |m| - cacheSize + 1))
  }

  ghost predicate Shrunk(m: Cache, rest: Cache, cacheSize: nat) { exists keys :: ShrunkBy(m, rest, cacheSize, keys) }

  lemma ErasedIsShrunk(m: Cache, cacheSize: nat, keys: seq<string>, iters: seq<string>)
    requires cacheSize <= |m| && Lists(keys, m) && iters == Candidates(keys, m, |m| - cacheSize + 1)
    ensures Shrunk(m, Without(m, ToSet(iters)), cacheSize)
  {
    OldestErased(keys, m, |m| - cacheSize + 1);
    RemainsIsShrunk(m, Without(m, ToSet(iters)), cacheSize, keys);
  }

  lemma RemainsIsShrunk(m: Cache, rest: Cache, cacheSize: nat, keys: seq<string>)
    requires cacheSize <= |m| && Lists(keys, m) && Remains(m, rest, Limit(keys, m, |m| - cacheSize + 1))
    ensures Shrunk(m, rest, cacheSize)
  {
    assert ShrunkBy(m, rest, cacheSize, keys);
  }

  lemma LimitRange(keys: seq<string>, m: Cache, count: nat)
    requires Lists(keys, m)
    ensures var n := Limit(keys, m, count);
      n <= count && (n == |m| || count <= n + |PinnedKeys(m)|)
  {
    LimitReached(keys, m, count);
    WantedBound(keys, m, count);
    assert PinnedKeys(m) * ToSet(keys) == PinnedKeys(m);
  }

  /** Without pins that leaves cacheSize - 1 entries; each pinned one may add one to that. */
  lemma ShrunkSize(m: Cache, rest: Cache, cacheSize: nat)
    requires Shrunk(m, rest, cacheSize)
    ensures cacheSize - 1 <= |rest| && (rest == map[] || |rest| <= cacheSize - 1 + |PinnedKeys(m)|)
    ensures PinnedKeys(m) == {} && 1 <= cacheSize ==> |rest| == cacheSize - 1
  {
    var keys :| ShrunkBy(m, rest, cacheSize, keys);
    LimitRange(keys, m, |m| - cacheSize + 1);
  }

  /** What TruncateCache makes of a cache. */
  ghost predicate TruncatedTo(before: Cache, rest: Cache, isExpireTime: bool, expireTime: int, now: int,
                              cacheSize: nat) {
    var m := if isExpireTime then Unexpired(before, expireTime, now) else before;
    if before == map[] || |m| < cacheSize then rest == m else Shrunk(m, rest, cacheSize)
  }

  lemma TruncatedSize(before: Cache, rest: Cache, isExpireTime: bool, expireTime: int, now: int, cacheSize: nat)
    requires TruncatedTo(before, rest, isExpireTime, expireTime, now, cacheSize)
    ensures Part(rest, before) && |rest| <= cacheSize + |PinnedKeys(before)|
  {
    var m := if isExpireTime then Unexpired(before, expireTime, now) else before;
    FewerPins(before, m);
    if before != map[] && cacheSize <= |m| { ShrunkSize(m, rest, cacheSize); }
  }

  lemma FewerPins(m: Cache, rest: Cache)
    requires Part(rest, m)
    ensures PinnedKeys(rest) <= PinnedKeys(m) && |PinnedKeys(rest)| <= |PinnedKeys(m)|
  {
    SubsetSize(PinnedKeys(rest), PinnedKeys(m));
  }

  /** Adding a key and leaving it out again. */
  lemma WithoutAbsent(m: Cache, key: string, e: Entry)
    requires key !in m
    ensures Without(m, {key}) == m && Without(m[key := e], {key}) == m
  {
  }

  class StatCache {
    var cache: Cache
    const cacheSize: nat
    var isExpireTime: bool
    var expireTime: int

    constructor (cacheSize: nat)
      ensures cache == map[] && this.cacheSize == cacheSize && !isExpireTime
    {
      cache, this.cacheSize, isExpireTime, expireTime := map[], cacheSize, false, 0;
    }

    /** The keys of the map, each once. */
    method Keys() returns (ks: seq<string>)
      ensures Lists(ks, cache)
    {
      ks := [];
      var rest := cache.Keys;
      while rest != {}
        invariant rest <= cache.Keys && Distinct(ks) && |ks| + |rest| == |cache.Keys|
        invariant forall k :: k in cache ==> (k in ks <==> k !in rest)
        invariant forall k :: k in ks ==> k in cache
        decreases |rest|
      {
        var k :| k in rest;
        SnocDistinct(ks, k);
        ks, rest := ks + [k], rest - {k};
      }
    }

    method DelStat(key: string)
      modifies `cache
      ensures cache == Without(old(cache), DelKeys(key))
    {
      if key in cache {
        cache := map k | k in cache && k != key :: cache[k];
      }
      if key != "" && key != "/" {
        var strpath := if key[|key| - 1] == '/' then key[..|key| - 1] else key + "/";
        if strpath in cache {
          cache := map k | k in cache && k != strpath :: cache[k];
        }
      }
    }

    /** Erase expired entries; then, if the cache is still full, the oldest ones. */
    method TruncateCache(now: int)
      modifies `cache
      ensures TruncatedTo(old(cache), cache, isExpireTime, expireTime, now, cacheSize)
    {
      if cache == map[] {
        return;
      }
      if isExpireTime {
        cache := Unexpired(cache, expireTime, now);
      }
      if |cache| < cacheSize {
        return;
      }
      EraseOldest();
    }

    /** Step 3 of TruncateCache: sort the candidates for eviction in one by one, erase those left. */
    method EraseOldest()
      requires cacheSize <= |cache|
      modifies `cache
      ensures Shrunk(old(cache), cache, cacheSize)
    {
      var keys := Keys();
      var iters := PickCandidates(keys, |cache| - cacheSize + 1);
      ErasedIsShrunk(cache, cacheSize, keys, iters);
      EraseKeys(iters);
    }

    method EraseKeys(keys: seq<string>)
      modifies `cache
      ensures cache == Without(old(cache), ToSet(keys)) && Part(cache, old(cache))
    {
      var i := 0;
      while i < |keys|
        invariant i <= |keys| && cache == Without(old(cache), ToSet(keys[..i]))
      {
        cache := map k | k in cache && k != keys[i] :: cache[k];
        assert keys[..i + 1] == keys[..i] + [keys[i]];
        i := i + 1;
      }
      assert keys[..i] == keys;
    }

    /** The candidate loop of step 3: add a key, sort, drop the last one if there are too many. */
    method PickCandidates(keys: seq<string>, count: nat) returns (iters: seq<string>)
      requires KeysOf(keys, cache)
      ensures iters == Candidates(keys, cache, count)
    {
      var eraseCount := count;
      iters := [];
      var i := 0;
      while i < |keys|
        invariant i <= |keys| && 0 <= eraseCount
        invariant iters == Candidates(keys[..i], cache, count) && eraseCount == Wanted(keys[..i], cache, count)
      {
        CandidatesNext(keys, i, cache, count);
        if 0 < cache[keys[i]].notruncate {
          if 0 < eraseCount {
            eraseCount := eraseCount - 1;
          }
        }
        InsertMembers(iters, keys[i], cache);
        iters := Insert(iters, keys[i], cache);
        if eraseCount < |iters| {
          iters := iters[..|iters| - 1];
        }
        i := i + 1;
      }
      assert keys[..i] == keys;
    }

    /** Add an entry, pinned or not.  headersWork says whether the headers could be converted. */
    method AddStat(key: string, now: int, nsec: int, noTruncate: bool, headersWork: bool) returns (result: bool)
      modifies `cache
      ensures result <==> (!noTruncate && cacheSize < 1) || headersWork
      ensures !noTruncate && cacheSize < 1 ==> cache == old(cache)
      ensures (noTruncate || 1 <= cacheSize) && result ==>
        key in cache && cache[key] == Entry(now, nsec, 0, if noTruncate then 1 else 0)
      // what happens to the other entries
      ensures (noTruncate || 1 <= cacheSize) && key in old(cache) ==>
        Without(cache, {key}) == Without(Without(old(cache), DelKeys(key)), {key})
      ensures (noTruncate || 1 <= cacheSize) && key !in old(cache) && |old(cache)| <= cacheSize ==>
        Without(cache, {key}) == old(cache)
      ensures (noTruncate || 1 <= cacheSize) && key !in old(cache) && cacheSize < |old(cache)| ==>
        TruncatedTo(old(cache), Without(cache, {key}), isExpireTime, expireTime, now, cacheSize)
      // how many there are
      ensures |cache| <= |old(cache)| || |cache| <= cacheSize + 1 + |PinnedKeys(old(cache))|
      ensures PinnedKeys(cache) <= PinnedKeys(old(cache)) + (if noTruncate then {key} else {})
    {
      if !noTruncate && cacheSize < 1 {
        return true;
      }
      var found, doTruncate := key in cache, cacheSize < |cache|;
      if found {
        DelStat(key);
        FewerKeys(old(cache), cache, key);
      } else if doTruncate {
        TruncateCache(now);
        TruncatedSize(old(cache), cache, isExpireTime, expireTime, now, cacheSize);
      }
      WithoutAbsent(cache, key, Entry(now, nsec, 0, if noTruncate then 1 else 0));
      if !headersWork {
        FewerOrSame(old(cache), cache);
        return false;
      }
      cache := cache[key := Entry(now, nsec, 0, if noTruncate then 1 else 0)];
      return true;
    }

    /** Pin an entry, or take one pin away. */
    method ChangeNoTruncateFlag(key: string, noTruncate: bool)
      modifies `cache
      ensures cache == if key in old(cache) then old(cache)[key := Pin(old(cache)[key], noTruncate)] else old(cache)
    {
      if key in cache {
        if noTruncate {
          cache := cache[key := cache[key].(notruncate := cache[key].notruncate + 1)];
        } else if 0 < cache[key].notruncate {
          cache := cache[key := cache[key].(notruncate := cache[key].notruncate - 1)];
        }
      }
    }
  }

  function Pin(e: Entry, noTruncate: bool): Entry {
    if noTruncate then e.(notruncate := e.notruncate + 1)
    else if 0 < e.notruncate then e.(notruncate := e.notruncate - 1)
    else e
  }

  datatype Operation =
    | Add(key: string, now: int, nsec: int, noTruncate: bool, headersWork: bool)
    | Change(key: string, noTruncate: bool)
    | Delete(key: string)
    | Truncate(now: int)

  /** How many of these operations pin an entry. */
  function Pins(operations: seq<Operation>): nat {
    if operations == [] then 0
    else
      var o := operations[|operations| - 1];
      Pins(operations[..|operations| - 1]) + (if (o.Add? || o.Change?) && o.noTruncate then 1 else 0)
  }

  /** Any run from an empty cache; sizes tells how many entries there were after each step. */
  method Run(cacheSize: nat, operations: seq<Operation>) returns (c: StatCache, sizes: seq<nat>)
    ensures fresh(c) && c.cacheSize == cacheSize && |PinnedKeys(c.cache)| <= Pins(operations)
    ensures |sizes| == |operations|
    ensures forall k :: 0 <= k < |sizes| ==> sizes[k] <= cacheSize + 1 + Pins(operations[..k + 1])
  {
    c := new StatCache(cacheSize);
    sizes := [];
    while |sizes| < |operations|
      invariant |sizes| <= |operations| && fresh(c) && c.cacheSize == cacheSize
      invariant |PinnedKeys(c.cache)| <= Pins(operations[..|sizes|])
      invariant |c.cache| <= cacheSize + 1 + Pins(operations[..|sizes|])
      invariant forall k :: 0 <= k < |sizes| ==> sizes[k] <= cacheSize + 1 + Pins(operations[..k + 1])
    {
      assert operations[..|sizes| + 1][..|sizes|] == operations[..|sizes|];
      Perform(c, operations[|sizes|]);
      sizes := sizes + [|c.cache|];
    }
    assert operations[..|sizes|] == operations;
  }

  method Perform(c: StatCache, o: Operation)
    modifies c`cache
    ensures |c.cache| <= |old(c.cache)| || |c.cache| <= c.cacheSize + 1 + |PinnedKeys(old(c.cache))|
    ensures |PinnedKeys(c.cache)|
         <= |PinnedKeys(old(c.cache))| + (if (o.Add? || o.Change?) && o.noTruncate then 1 else 0)
  {
    ghost var before := c.cache;
    match o {
      case Add(key, now, nsec, noTruncate, headersWork) =>
        var _ := c.AddStat(key, now, nsec, noTruncate, headersWork);
        SubsetSize(PinnedKeys(c.cache), PinnedKeys(before) + (if noTruncate then {key} else {}));
      case Change(key, noTruncate) =>
        c.ChangeNoTruncateFlag(key, noTruncate);
        FewerOrSame(before, c.cache);
        SubsetSize(PinnedKeys(c.cache), PinnedKeys(before) + (if noTruncate then {key} else {}));
      case Delete(key) =>
        c.DelStat(key);
        FewerOrSame(before, c.cache);
        FewerPins(before, c.cache);
      case Truncate(now) =>
        c.TruncateCache(now);
        TruncatedSize(before, c.cache, c.isExpireTime, c.expireTime, now, c.cacheSize);
        FewerOrSame(before, c.cache);
        FewerPins(before, c.cache);
    }
  }

  /** The size the cache is configured for is exceeded by one: this many new entries all stay. */
  method Overfill(cacheSize: nat, keys: seq<string>) returns (c: StatCache)
    requires 1 <= cacheSize && |keys| == cacheSize + 1 && Distinct(keys)
    ensures |c.cache| == c.cacheSize + 1 && c.cacheSize == cacheSize
  {
    c := new StatCache(cacheSize);
    var i := 0;
    while i < |keys|
      invariant i <= |keys| && fresh(c) && c.cacheSize == cacheSize && Holding(c.cache, keys, i)
    {
      ghost var before := c.cache;
      NotYetHeld(before, keys, i);
      var _ := c.AddStat(keys[i], i, 0, false, true);
      OneKeyMore(before, c.cache, keys[i]);
      OneMoreHeld(before, c.cache, keys, i);
      i := i + 1;
    }
  }

  /** The first i of these keys and no others. */
  ghost predicate Holding(m: Cache, keys: seq<string>, i: nat) {
    |m| == i && forall k :: k in m ==> exists j :: 0 <= j < i && j < |keys| && keys[j] == k
  }

  lemma NotYetHeld(m: Cache, keys: seq<string>, i: nat)
    requires i < |keys| && Distinct(keys) && Holding(m, keys, i)
    ensures keys[i] !in m
  {
  }

  lemma OneMoreHeld(m: Cache, n: Cache, keys: seq<string>, i: nat)
    requires i < |keys| && Holding(m, keys, i) && |n| == |m| + 1 && forall k :: k in n ==> k == keys[i] || k in m
    ensures Holding(n, keys, i + 1)
  {
    forall k | k in n ensures exists j :: 0 <= j < i + 1 && j < |keys| && keys[j] == k {
      if k in m {
        var j :| 0 <= j < i && j < |keys| && keys[j] == k;
        assert j < i + 1;
      }
    }
  }

  lemma OneKeyMore(m: Cache, n: Cache, key: string)
    requires key !in m && key in n && Without(n, {key}) == m
    ensures |n| == |m| + 1 && forall k :: k in n ==> k == key || k in m
  {
    assert n.Keys == m.Keys + {key};
    forall k | k in n && k != key ensures k in m { assert k in Without(n, {key}); }
  }

  lemma ErasedSize(m: Cache, ks: seq<string>)
    requires KeysOf(ks, m) && Distinct(ks)
    ensures |Without(m, ToSet(ks))| == |m| - |ks|
  {
    DistinctSize(ks);
    assert ToSet(ks) <= m.Keys;
    assert Without(m, ToSet(ks)).Keys == m.Keys - ToSet(ks);
  }

  lemma FewerOrSame(m: Cache, n: Cache)
    requires forall k :: k in n ==> k in m
    ensures |n| <= |m|
  {
    assert n.Keys <= m.Keys;
    SubsetSize(n.Keys, m.Keys);
  }

  lemma FewerKeys(m: Cache, n: Cache, key: string)
    requires key in m && key !in n && forall k :: k in n ==> k in m
    ensures |n| < |m|
  {
    assert n.Keys <= m.Keys - {key};
    SubsetSize(n.Keys, m.Keys - {key});
  }
}
