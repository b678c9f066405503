/** The run-length list of loaded/unloaded areas of a partly downloaded local file.
    A list of pages stands for one flag per byte ("has this byte been fetched?"). */
module Pages {
  import opened Numbers

  /** One area of the file. */
  datatype Page = Page(offset: nat, bytes: nat, loaded: bool) {
    function Next(): nat { offset + bytes }
    function End(): nat { if 0 < bytes then offset + bytes - 1 else 0 }
  }

  // ---------------------------------------------------------------------
  // What a list of pages means
  // ---------------------------------------------------------------------

  function Repeat(n: nat, b: bool): (r: seq<bool>)
    ensures |r| == n
    ensures forall i :: 0 <= i < n ==> r[i] == b
  {
    seq(n, _ => b)
  }

  /** One flag per byte. */
  function Flags(ps: seq<Page>): seq<bool> {
    if ps == [] then [] else Repeat(ps[0].bytes, ps[0].loaded) + Flags(ps[1..])
  }

  /** Non-empty pages, each starting where the one before it ends. */
  predicate Chain(ps: seq<Page>, start: nat) {
    ps == [] || (ps[0].offset == start && 0 < ps[0].bytes && Chain(ps[1..], ps[0].Next()))
  }

  /** A zero-byte page occurs only as the single page of an empty file. */
  predicate WellFormed(ps: seq<Page>) {
    Chain(ps, 0) || (|ps| == 1 && ps[0].offset == 0 && ps[0].bytes == 0)
  }

  predicate Alternating(ps: seq<Page>) {
    forall k :: 0 < k < |ps| ==> ps[k - 1].loaded != ps[k].loaded
  }

  function SizeOf(ps: seq<Page>): nat {
    if ps == [] then 0 else ps[|ps| - 1].Next()
  }

  /** No page has pos strictly inside it. */
  predicate Aligned(ps: seq<Page>, pos: nat) {
    forall k :: 0 <= k < |ps| ==> !(ps[k].offset < pos < ps[k].Next())
  }

  // ---------------------------------------------------------------------
  // The same operations on plain flags
  // ---------------------------------------------------------------------

  function ResizedFlags(fs: seq<bool>, n: nat, b: bool): seq<bool> {
    if n <= |fs| then fs[..n] else fs + Repeat(n - |fs|, b)
  }

  /** Pad with "unloaded" up to start if short, then set [start, start+size). */
  function Paint(fs: seq<bool>, start: nat, size: nat, b: bool): (r: seq<bool>)
    ensures |r| == if |fs| < start + size then start + size else |fs|
    ensures forall i :: 0 <= i < |r| ==>
      r[i] == if start <= i < start + size then b else i < |fs| && fs[i]
  {
    seq(Max(start + size, |fs|), i => if start <= i < start + size then b else 0 <= i < |fs| && fs[i])
  }

  /** Resizing to start and then on to the end of the window paints a window that reaches the end. */
  lemma ResizedIsPaint(fs: seq<bool>, start: nat, size: nat, b: bool)
    requires |fs| <= start + size
    ensures ResizedFlags(ResizedFlags(fs, start, false), start + size, b) == Paint(fs, start, size, b)
    ensures |fs| == start ==> ResizedFlags(fs, start, false) == fs
  {
  }

  /** Every byte of the window is loaded; a size of 0 means "to the end". */
  ghost predicate AllLoaded(fs: seq<bool>, start: nat, size: nat) {
    forall i :: start <= i < |fs| && (size == 0 || i < start + size) ==> fs[i]
  }

  /** How many bytes of [lo, hi) are unloaded. */
  function Unloaded(fs: seq<bool>, lo: nat, hi: nat): nat
    requires hi <= |fs|
  {
    if hi <= lo then 0 else Unloaded(fs, lo, hi - 1) + (if fs[hi - 1] then 0 else 1)
  }

  // ---------------------------------------------------------------------
  // Lemmas about pages and flags
  // ---------------------------------------------------------------------

  lemma {:induction false} FlagsConcat(a: seq<Page>, b: seq<Page>)
    ensures Flags(a + b) == Flags(a) + Flags(b)
  {
    if a == [] {
      assert a + b == b;
    } else {
      assert (a + b)[1..] == a[1..] + b;
      FlagsConcat(a[1..], b);
    }
  }

  lemma {:induction false} ChainConcat(a: seq<Page>, b: seq<Page>, start: nat)
    ensures Chain(a + b, start) <==> Chain(a, start) && Chain(b, start + |Flags(a)|)
  {
    if a == [] {
      assert a + b == b;
    } else {
      assert (a + b)[1..] == a[1..] + b;
      ChainConcat(a[1..], b, a[0].Next());
    }
  }

  /** Splitting a list at a page. */
  lemma SplitAt(ps: seq<Page>, k: nat)
    requires k <= |ps|
    ensures Flags(ps) == Flags(ps[..k]) + Flags(ps[k..])
    ensures Chain(ps, 0) <==> Chain(ps[..k], 0) && Chain(ps[k..], |Flags(ps[..k])|)
  {
    assert ps == ps[..k] + ps[k..];
    FlagsConcat(ps[..k], ps[k..]);
    ChainConcat(ps[..k], ps[k..], 0);
  }

  lemma Single(p: Page)
    ensures Flags([p]) == Repeat(p.bytes, p.loaded)
  {
    assert Flags([p][1..]) == [];
  }

  lemma OnePage(n: nat, b: bool)
    ensures var ps := [Page(0, n, b)]; WellFormed(ps) && Alternating(ps) && Flags(ps) == Repeat(n, b)
  {
    Single(Page(0, n, b));
    assert [Page(0, n, b)][1..] == [];
  }

  /** Taking one more page. */
  lemma Snoc(ps: seq<Page>, k: nat)
    requires k < |ps|
    ensures Flags(ps[..k + 1]) == Flags(ps[..k]) + Repeat(ps[k].bytes, ps[k].loaded)
    ensures Flags(ps[k..]) == Repeat(ps[k].bytes, ps[k].loaded) + Flags(ps[k + 1..])
  {
    assert ps[..k + 1] == ps[..k] + [ps[k]];
    FlagsConcat(ps[..k], [ps[k]]);
    Single(ps[k]);
    assert ps[k..][1..] == ps[k + 1..];
  }

  lemma {:induction false} ChainSize(ps: seq<Page>, start: nat)
    requires Chain(ps, start)
    ensures ps != [] ==> ps[|ps| - 1].Next() == start + |Flags(ps)|
  {
    if ps != [] {
      ChainSize(ps[1..], ps[0].Next());
    }
  }

  /** The size the list reports is the number of flags it stands for. */
  lemma SizeIsFlagCount(ps: seq<Page>)
    requires WellFormed(ps)
    ensures SizeOf(ps) == |Flags(ps)|
  {
    if Chain(ps, 0) {
      ChainSize(ps, 0);
    } else {
      Single(ps[0]);
      assert ps == [ps[0]];
    }
  }

  /** Where page k lies and what it says. */
  lemma PageAt(ps: seq<Page>, k: nat)
    requires Chain(ps, 0) && k < |ps|
    ensures 0 < ps[k].bytes
    ensures ps[k].offset == |Flags(ps[..k])|
    ensures ps[k].Next() <= |Flags(ps)|
    ensures forall i :: ps[k].offset <= i < ps[k].Next() ==> Flags(ps)[i] == ps[k].loaded
    ensures k + 1 < |ps| ==> ps[k + 1].offset == ps[k].Next()
    ensures k + 1 == |ps| ==> ps[k].Next() == |Flags(ps)|
    ensures k == 0 ==> ps[k].offset == 0
  {
    SplitAt(ps, k);
    Snoc(ps, k);
    assert ps[k..][1..] == ps[k + 1..];
    if k + 1 == |ps| {
      assert ps[k + 1..] == [];
    }
  }

  lemma Layout(ps: seq<Page>)
    requires Chain(ps, 0)
    ensures forall k :: 0 <= k < |ps| ==> 0 < ps[k].bytes && ps[k].Next() <= |Flags(ps)|
    ensures forall k, i :: 0 <= k < |ps| && ps[k].offset <= i < ps[k].Next() ==> Flags(ps)[i] == ps[k].loaded
    ensures forall k :: 0 < k < |ps| ==> ps[k].offset == ps[k - 1].Next()
    ensures ps != [] ==> ps[0].offset == 0 && ps[|ps| - 1].Next() == |Flags(ps)|
    ensures ps == [] ==> Flags(ps) == []
  {
    forall k | 0 <= k < |ps|
      ensures 0 < ps[k].bytes && ps[k].Next() <= |Flags(ps)|
      ensures forall i :: ps[k].offset <= i < ps[k].Next() ==> Flags(ps)[i] == ps[k].loaded
      ensures k + 1 < |ps| ==> ps[k + 1].offset == ps[k].Next()
      ensures k == 0 ==> ps[k].offset == 0
      ensures k + 1 == |ps| ==> ps[k].Next() == |Flags(ps)|
    {
      PageAt(ps, k);
    }
    forall k | 0 < k < |ps|
      ensures ps[k].offset == ps[k - 1].Next()
    {
      PageAt(ps, k - 1);
    }
  }

  /** Pages further right start no earlier than any page on their left ends. */
  lemma {:induction false} OffsetsAscend(ps: seq<Page>)
    requires WellFormed(ps)
    ensures forall k, l :: 0 <= k < l < |ps| ==> ps[k].Next() <= ps[l].offset
  {
    if 1 < |ps| {
      forall k, l | 0 <= k < l < |ps|
        ensures ps[k].Next() <= ps[l].offset
      {
        PageAt(ps, k);
        PageAt(ps, l);
        Snoc(ps, k);
        assert ps[..l] == ps[..k + 1] + ps[k + 1..l];
        FlagsConcat(ps[..k + 1], ps[k + 1..l]);
      }
    }
  }

  /** Cutting at size when page k is the first one that lies past it. */
  lemma CutBefore(ps: seq<Page>, k: nat, size: nat)
    requires Chain(ps, 0) && k < |ps| && size <= ps[k].offset
    requires forall j :: 0 <= j < k ==> ps[j].Next() <= size
    ensures size <= |Flags(ps)| && Chain(ps[..k], 0) && Flags(ps[..k]) == Flags(ps)[..size]
  {
    PageAt(ps, k);
    SplitAt(ps, k);
    if 0 < k {
      PageAt(ps, k - 1);
    }
  }

  /** Cutting at size when page k lies across it. */
  lemma CutAcross(ps: seq<Page>, k: nat, size: nat)
    requires Chain(ps, 0) && k < |ps| && ps[k].offset < size < ps[k].Next()
    ensures size <= |Flags(ps)|
    ensures var qs := ps[..k] + [ps[k].(bytes := size - ps[k].offset)];
      Chain(qs, 0) && Flags(qs) == Flags(ps)[..size]
  {
    var n := size - ps[k].offset;
    PageAt(ps, k);
    SplitAt(ps, k);
    Snoc(ps, k);
    AppendKeeps(ps[..k], n, ps[k].loaded);
    assert Repeat(n, ps[k].loaded) == Repeat(ps[k].bytes, ps[k].loaded)[..n];
  }

  lemma RestPast(ps: seq<Page>, k: nat, size: nat)
    requires Chain(ps, 0) && k <= |ps|
    requires (k < |ps| && size <= ps[k].offset) || (0 < k && size <= ps[k - 1].Next())
    ensures StartFrom(ps[k..], size)
  {
    OffsetsAscend(ps);
    forall j | k <= j < |ps| ensures size <= ps[j].offset && 0 < ps[j].bytes {
      PageAt(ps, j);
    }
  }

  predicate EndBy(ps: seq<Page>, size: nat) { forall p :: p in ps ==> p.Next() <= size }
  predicate StartFrom(ps: seq<Page>, size: nat) { forall p :: p in ps ==> size <= p.offset && 0 < p.bytes }

  /** The front stay of ps is the list cut at size; everything behind it lies past size. */
  ghost predicate CutDown(ps: seq<Page>, stay: seq<Page>, fs: seq<bool>, size: nat) {
    && size <= |fs| && |stay| <= |ps| && ps[..|stay|] == stay
    && Chain(stay, 0) && Flags(stay) == fs[..size] && EndBy(stay, size)
    && StartFrom(ps[|stay|..], size)
  }

  /** Page k is the first one past size. */
  lemma CutAtBoundary(ps: seq<Page>, k: nat, size: nat)
    requires Chain(ps, 0) && k < |ps| && size <= ps[k].offset && EndBy(ps[..k], size)
    ensures CutDown(ps, ps[..k], Flags(ps), size)
  {
    forall j | 0 <= j < k ensures ps[j].Next() <= size { assert ps[..k][j] in ps[..k]; }
    CutBefore(ps, k, size);
    RestPast(ps, k, size);
  }

  /** Page k lies across size and is shortened. */
  lemma CutInside(ps: seq<Page>, k: nat, size: nat)
    requires Chain(ps, 0) && k < |ps| && ps[k].offset < size < ps[k].Next() && EndBy(ps[..k], size)
    ensures var qs := ps[k := ps[k].(bytes := size - ps[k].offset)];
      CutDown(qs, qs[..k + 1], Flags(ps), size) && EndBy(qs[..k], size)
  {
    var short := ps[k].(bytes := size - ps[k].offset);
    var qs := ps[k := short];
    CutAcross(ps, k, size);
    RestPast(ps, k + 1, size);
    assert qs[..k] == ps[..k] && qs[..k + 1] == ps[..k] + [short] && qs[k + 1..] == ps[k + 1..];
  }

  /** After the cut no page lies across size. */
  lemma NotAcross(cut: bool, ps: seq<Page>, stay: seq<Page>, fs: seq<bool>, size: nat, i: nat)
    requires cut ==> CutDown(ps, stay, fs, size)
    requires i < |ps|
    ensures cut ==> if i < |stay| then ps[i].Next() <= size else size <= ps[i].offset
  {
    if cut {
      if i < |stay| {
        assert ps[..|stay|][i] == ps[i] && stay[i] in stay;
      } else {
        assert ps[|stay|..][i - |stay|] == ps[i];
      }
    }
  }

  /** Erasing the page behind the front. */
  lemma EraseRest(ps: seq<Page>, stay: seq<Page>, fs: seq<bool>, size: nat, i: nat)
    requires CutDown(ps, stay, fs, size) && i < |ps| && i <= |stay| && size < ps[i].Next()
    ensures i == |stay| && CutDown(ps[..i] + ps[i + 1..], stay, fs, size)
    ensures (ps[..i] + ps[i + 1..])[..i] == ps[..i]
  {
    NotAcross(true, ps, stay, fs, size, i);
    var qs := ps[..i] + ps[i + 1..];
    assert qs[..i] == stay && qs[i..] == ps[i..][1..];
  }

  /** Two different positions of a longer well-formed list belong to a chain. */
  lemma ManyPagesChain(ps: seq<Page>)
    requires WellFormed(ps)
    requires |ps| != 1 || 0 < |Flags(ps)|
    ensures Chain(ps, 0)
  {
    if |ps| == 1 {
      assert ps == [ps[0]];
      Single(ps[0]);
    }
  }

  /** Replacing a stretch of pages by another one of the same size. */
  lemma ReplaceMiddle(a: seq<Page>, m: seq<Page>, n: seq<Page>, z: seq<Page>)
    requires Chain(a + m + z, 0)
    requires Chain(n, |Flags(a)|) && |Flags(n)| == |Flags(m)|
    ensures Chain(a + n + z, 0)
    ensures Flags(a + m + z) == Flags(a) + Flags(m) + Flags(z)
    ensures Flags(a + n + z) == Flags(a) + Flags(n) + Flags(z)
  {
    FlagsConcat(a + m, z);
    FlagsConcat(a, m);
    FlagsConcat(a + n, z);
    FlagsConcat(a, n);
    ChainConcat(a + m, z, 0);
    ChainConcat(a, m, 0);
    ChainConcat(a + n, z, 0);
    ChainConcat(a, n, 0);
  }

  lemma Pair(p: Page, q: Page)
    ensures Flags([p, q]) == Repeat(p.bytes, p.loaded) + Repeat(q.bytes, q.loaded)
    ensures 0 < p.bytes && 0 < q.bytes && p.Next() == q.offset ==> Chain([p, q], p.offset)
  {
    assert [p, q][1..] == [q];
    Single(q);
  }

  /** One step of a scan from the left over a well-formed list. */
  lemma ScanStep(ps: seq<Page>, k: nat)
    requires WellFormed(ps) && k < |ps|
    ensures var fs := Flags(ps);
      && ps[k].Next() <= |fs|
      && (forall i :: ps[k].offset <= i < ps[k].Next() ==> fs[i] == ps[k].loaded)
      && (if k + 1 < |ps| then ps[k + 1].offset == ps[k].Next() else ps[k].Next() == |fs|)
      && (k == 0 ==> ps[k].offset == 0)
      && (if |fs| == 0 then |ps| == 1 && ps[k].bytes == 0 else 0 < ps[k].bytes)
  {
    if Chain(ps, 0) {
      PageAt(ps, k);
    } else {
      Single(ps[0]);
      assert ps == [ps[0]];
    }
  }

  /** Merging page k into the page before it. */
  lemma MergeKeeps(ps: seq<Page>, k: nat)
    requires Chain(ps, 0) && 0 < k < |ps| && ps[k - 1].loaded == ps[k].loaded
    ensures var m := ps[k - 1].(bytes := ps[k - 1].bytes + ps[k].bytes);
      var qs := ps[..k - 1] + [m] + ps[k + 1..];
      Chain(qs, 0) && Flags(qs) == Flags(ps)
  {
    var p, q := ps[k - 1], ps[k];
    assert 0 < p.bytes && p.offset == |Flags(ps[..k - 1])| by { PageAt(ps, k - 1); }
    MergePair(p, q);
    assert ps == ps[..k - 1] + [p, q] + ps[k + 1..];
    ReplaceMiddle(ps[..k - 1], [p, q], [p.(bytes := p.bytes + q.bytes)], ps[k + 1..]);
  }

  lemma MergePair(p: Page, q: Page)
    requires 0 < p.bytes && p.loaded == q.loaded
    ensures var m := [p.(bytes := p.bytes + q.bytes)]; Chain(m, p.offset) && Flags(m) == Flags([p, q])
  {
    var m := p.(bytes := p.bytes + q.bytes);
    Pair(p, q);
    Single(m);
    assert [m][1..] == [];
    assert Repeat(p.bytes, p.loaded) + Repeat(q.bytes, p.loaded) == Repeat(m.bytes, m.loaded);
  }

  lemma Around(ps: seq<Page>, k: nat)
    requires k < |ps|
    ensures ps == ps[..k] + [ps[k]] + ps[k + 1..]
  {
  }

  /** A page cut in two at an inner position. */
  function Halves(p: Page, pos: nat): seq<Page>
    requires p.offset < pos < p.Next()
  {
    [Page(p.offset, pos - p.offset, p.loaded), Page(pos, p.bytes - (pos - p.offset), p.loaded)]
  }

  lemma SplitOne(p: Page, pos: nat)
    requires p.offset < pos < p.Next()
    ensures Chain(Halves(p, pos), p.offset) && Flags(Halves(p, pos)) == Flags([p])
  {
    var n := pos - p.offset;
    Pair(Page(p.offset, n, p.loaded), Page(pos, p.bytes - n, p.loaded));
    Single(p);
    assert Repeat(n, p.loaded) + Repeat(p.bytes - n, p.loaded) == Repeat(p.bytes, p.loaded);
  }

  /** Splitting page k at an inner position. */
  lemma SplitKeeps(ps: seq<Page>, k: nat, pos: nat)
    requires Chain(ps, 0) && k < |ps| && ps[k].offset < pos < ps[k].Next()
    ensures Chain(SplitPage(ps, k, pos), 0) && Flags(SplitPage(ps, k, pos)) == Flags(ps)
  {
    var m := Halves(ps[k], pos);
    assert ps[k].offset == |Flags(ps[..k])| by { PageAt(ps, k); }
    SplitOne(ps[k], pos);
    Around(ps, k);
    ReplaceMiddle(ps[..k], [ps[k]], m, ps[k + 1..]);
  }

  /** The list Parse builds when page k has pos strictly inside it. */
  function SplitPage(ps: seq<Page>, k: nat, pos: nat): seq<Page>
    requires k < |ps| && ps[k].offset < pos < ps[k].Next()
  {
    ps[..k] + Halves(ps[k], pos) + ps[k + 1..]
  }

  /** Boundaries stay boundaries when a page is split, and the split position becomes one. */
  lemma SplitAligns(ps: seq<Page>, k: nat, pos: nat)
    requires WellFormed(ps) && k < |ps| && ps[k].offset < pos < ps[k].Next()
    ensures Aligned(SplitPage(ps, k, pos), pos)
    ensures forall p: nat :: Aligned(ps, p) ==> Aligned(SplitPage(ps, k, pos), p)
  {
    var qs := SplitPage(ps, k, pos);
    OffsetsAscend(ps);
    forall j | 0 <= j < |qs|
      ensures if j < k then qs[j] == ps[j] else if k + 1 < j then qs[j] == ps[j - 1] else
              ps[k].offset <= qs[j].offset && qs[j].Next() <= ps[k].Next()
    {
    }
    forall p: nat | Aligned(ps, p)
      ensures Aligned(qs, p)
    {
      assert !(ps[k].offset < p < ps[k].Next());
    }
  }

  /** Replacing the flag of page k. */
  lemma RecolourKeeps(ps: seq<Page>, k: nat, b: bool)
    requires Chain(ps, 0) && k < |ps|
    ensures var qs := ps[k := ps[k].(loaded := b)];
      && Chain(qs, 0)
      && Flags(qs) == Flags(ps[..k]) + Repeat(ps[k].bytes, b) + Flags(ps[k + 1..])
      && Flags(qs[..k + 1]) == Flags(ps[..k]) + Repeat(ps[k].bytes, b)
      && qs[k + 1..] == ps[k + 1..]
  {
    var p := ps[k].(loaded := b);
    var qs := ps[k := p];
    var a, z := ps[..k], ps[k + 1..];
    SplitAt(ps, k);
    assert ps[k..][1..] == z;
    assert qs == a + ([p] + z);
    FlagsConcat(a, [p] + z);
    ChainConcat(a, [p] + z, 0);
    assert ([p] + z)[1..] == z;
    Snoc(qs, k);
    assert qs[..k] == a;
  }

  /** Adding one page at the end. */
  lemma AppendKeeps(ps: seq<Page>, n: nat, b: bool)
    requires Chain(ps, 0) && 0 < n
    ensures var qs := ps + [Page(|Flags(ps)|, n, b)];
      Chain(qs, 0) && Flags(qs) == Flags(ps) + Repeat(n, b)
  {
    var p := Page(|Flags(ps)|, n, b);
    FlagsConcat(ps, [p]);
    ChainConcat(ps, [p], 0);
    Single(p);
  }

  /** A well-formed alternating list is the only one for its flags: a list that has
      been compressed is a canonical form. */
  lemma {:induction false} CanonicalUnique(a: seq<Page>, b: seq<Page>, start: nat)
    requires Chain(a, start) && Chain(b, start) && Alternating(a) && Alternating(b)
    requires Flags(a) == Flags(b)
    ensures a == b
  {
    if a != [] && b != [] {
      FirstPageNotShorter(a, b, start);
      FirstPageNotShorter(b, a, start);
      assert Flags(a)[0] == a[0].loaded && Flags(b)[0] == b[0].loaded;
      assert a[0] == b[0];
      assert Flags(a[1..]) == Flags(a)[a[0].bytes..];
      assert Flags(b[1..]) == Flags(b)[b[0].bytes..];
      assert forall k :: 0 < k < |a[1..]| ==> a[1..][k - 1] == a[k] && a[1..][k] == a[k + 1];
      assert forall k :: 0 < k < |b[1..]| ==> b[1..][k - 1] == b[k] && b[1..][k] == b[k + 1];
      CanonicalUnique(a[1..], b[1..], a[0].Next());
    }
  }

  lemma FirstPageNotShorter(a: seq<Page>, b: seq<Page>, start: nat)
    requires a != [] && b != []
    requires Chain(a, start) && Chain(b, start) && Alternating(a) && Alternating(b)
    requires Flags(a) == Flags(b)
    ensures b[0].bytes <= a[0].bytes
  {
    var n := a[0].bytes;
    assert Flags(a)[0] == a[0].loaded && Flags(b)[0] == b[0].loaded;
    if |a| == 1 {
      assert a[1..] == [] && |Flags(a)| == n;
    } else {
      assert a[1 - 1].loaded != a[1].loaded;
      assert Flags(a[1..])[0] == a[1].loaded;
      assert Flags(a)[n] != b[0].loaded;
    }
  }

  /** The canonical list of some flags: maximal pages. */
  function Canonical(fs: seq<bool>): (ps: seq<Page>)
    ensures Chain(ps, 0) && Alternating(ps) && Flags(ps) == fs
  {
    if fs == [] then []
    else
      var n := |fs| - 1;
      var ps := Canonical(fs[..n]);
      GrowByOne(ps, fs[n]);
      assert fs[..n] + Repeat(1, fs[n]) == fs;
      Grow(ps, fs[n])
  }

  /** A compressed list with every byte loaded is one page. */
  lemma OneLoadedPage(ps: seq<Page>, n: nat)
    requires WellFormed(ps) && Alternating(ps) && Flags(ps) == Repeat(n, true) && 0 < n
    ensures ps == [Page(0, n, true)]
  {
    ManyPagesChain(ps);
    OnePage(n, true);
    CanonicalUnique(ps, [Page(0, n, true)], 0);
  }

  /** One more byte at the end of a canonical list. */
  function Grow(ps: seq<Page>, b: bool): seq<Page> {
    var k := |ps|;
    if k != 0 && ps[k - 1].loaded == b then ps[..k - 1] + [ps[k - 1].(bytes := ps[k - 1].bytes + 1)]
    else ps + [Page(SizeOf(ps), 1, b)]
  }

  lemma GrowByOne(ps: seq<Page>, b: bool)
    requires Chain(ps, 0) && Alternating(ps)
    ensures Chain(Grow(ps, b), 0) && Alternating(Grow(ps, b)) && Flags(Grow(ps, b)) == Flags(ps) + Repeat(1, b)
  {
    var k := |ps|;
    SizeIsFlagCount(ps);
    AppendKeeps(ps, 1, b);
    if k != 0 && ps[k - 1].loaded == b {
      var qs := ps + [Page(SizeOf(ps), 1, b)];
      MergeKeeps(qs, k);
      assert qs[..k - 1] + [ps[k - 1].(bytes := ps[k - 1].bytes + 1)] + qs[k + 1..] == Grow(ps, b);
    }
  }

  /** The list SetPageLoadedStatus leaves after compressing. */
  function SetPages(ps: seq<Page>, start: nat, size: nat, b: bool): (qs: seq<Page>)
    ensures WellFormed(qs) && Alternating(qs) && Flags(qs) == Paint(Flags(ps), start, size, b)
  {
    OnePage(size, b);
    if |Flags(ps)| == 0 && start == 0 then [Page(0, size, b)] else Canonical(Paint(Flags(ps), start, size, b))
  }

  lemma CompressedIsSet(ps: seq<Page>, qs: seq<Page>, start: nat, size: nat, b: bool)
    requires WellFormed(qs) && Alternating(qs) && Flags(qs) == Paint(Flags(ps), start, size, b)
    requires |Flags(ps)| == 0 && start == 0 ==> qs == [Page(0, size, b)]
    ensures qs == SetPages(ps, start, size, b)
  {
    if |Flags(ps)| != 0 || start != 0 {
      ManyPagesChain(qs);
      CanonicalUnique(qs, Canonical(Flags(qs)), 0);
    }
  }

  lemma {:induction false} UnloadedUniform(fs: seq<bool>, lo: nat, mid: nat, hi: nat, b: bool)
    requires lo <= mid <= hi <= |fs|
    requires forall i :: mid <= i < hi ==> fs[i] == b
    ensures Unloaded(fs, lo, hi) == Unloaded(fs, lo, mid) + (if b then 0 else hi - mid)
    decreases hi
  {
    if mid < hi {
      UnloadedUniform(fs, lo, mid, hi - 1, b);
    }
  }

  /** What a page [lo, hi) of one flag adds to the count over the window [start, next). */
  lemma PageShare(fs: seq<bool>, lo: nat, hi: nat, b: bool, start: nat, next: nat)
    requires lo <= hi <= |fs| && start <= next
    requires forall i :: lo <= i < hi ==> fs[i] == b
    ensures var w := Min(next, |fs|);
      Unloaded(fs, start, Min(hi, w)) == Unloaded(fs, start, Min(lo, w)) +
        if b || hi <= start || next <= lo then 0 else Min(hi, next) - Max(lo, start)
  {
    var w := Min(next, |fs|);
    if start < hi && lo < next {
      UnloadedUniform(fs, start, Max(lo, start), Min(hi, w), b);
    }
  }

  /** Nothing is unloaded exactly when every flag of the window is set. */
  lemma {:induction false} UnloadedZero(fs: seq<bool>, lo: nat, hi: nat)
    requires hi <= |fs|
    ensures Unloaded(fs, lo, hi) == 0 <==> forall i :: lo <= i < hi ==> fs[i]
    decreases hi
  {
    if lo < hi {
      UnloadedZero(fs, lo, hi - 1);
    }
  }

  // ---------------------------------------------------------------------
  // Runs of unloaded bytes
  // ---------------------------------------------------------------------

  predicate InRun(runs: seq<Page>, i: int) {
    exists k :: 0 <= k < |runs| && runs[k].offset <= i < runs[k].Next()
  }

  /** runs lists exactly the unloaded bytes of [lo, hi), in maximal runs. */
  ghost predicate IsUnloadedRuns(runs: seq<Page>, fs: seq<bool>, lo: nat, hi: nat)
    requires hi <= |fs|
  {
    && (forall k :: 0 <= k < |runs| ==>
          0 < runs[k].bytes && !runs[k].loaded && lo <= runs[k].offset && runs[k].Next() <= hi)
    && (forall k, l :: 0 <= k < l < |runs| ==> runs[k].Next() < runs[l].offset)
    && (forall i :: lo <= i < hi ==> (!fs[i] <==> InRun(runs, i)))
  }

  /** The maximal runs of a window are determined by its flags. */
  lemma UnloadedRunsUnique(a: seq<Page>, b: seq<Page>, fs: seq<bool>, lo: nat, hi: nat)
    requires hi <= |fs|
    requires IsUnloadedRuns(a, fs, lo, hi) && IsUnloadedRuns(b, fs, lo, hi)
    ensures a == b
  {
    var k := 0;
    while k < |a| && k < |b|
      invariant k <= |a| && k <= |b|
      invariant a[..k] == b[..k]
    {
      SameRun(a, b, fs, lo, hi, k);
      k := k + 1;
    }
    if k < |a| {
      NoExtraRun(a, b, fs, lo, hi, k);
    } else if k < |b| {
      NoExtraRun(b, a, fs, lo, hi, k);
    }
  }

  lemma NoExtraRun(a: seq<Page>, b: seq<Page>, fs: seq<bool>, lo: nat, hi: nat, k: nat)
    requires hi <= |fs|
    requires IsUnloadedRuns(a, fs, lo, hi) && IsUnloadedRuns(b, fs, lo, hi)
    requires k == |b| <= |a| && a[..k] == b
    ensures |a| == k
  {
    if k < |a| {
      forall l | 0 <= l < |b| ensures b[l].Next() < a[k].offset { assert b[l] == a[..k][l]; }
      assert InRun(a, a[k].offset);
      assert false;
    }
  }

  lemma SameRun(a: seq<Page>, b: seq<Page>, fs: seq<bool>, lo: nat, hi: nat, k: nat)
    requires hi <= |fs|
    requires IsUnloadedRuns(a, fs, lo, hi) && IsUnloadedRuns(b, fs, lo, hi)
    requires k < |a| && k < |b| && a[..k] == b[..k]
    ensures a[k] == b[k]
  {
    StartsNoEarlier(a, b, fs, lo, hi, k);
    StartsNoEarlier(b, a, fs, lo, hi, k);
    EndsNoLater(a, b, fs, lo, hi, k);
    EndsNoLater(b, a, fs, lo, hi, k);
  }

  lemma StartsNoEarlier(a: seq<Page>, b: seq<Page>, fs: seq<bool>, lo: nat, hi: nat, k: nat)
    requires hi <= |fs|
    requires IsUnloadedRuns(a, fs, lo, hi) && IsUnloadedRuns(b, fs, lo, hi)
    requires k < |a| && k < |b| && a[..k] == b[..k]
    ensures b[k].offset <= a[k].offset
  {
    var i := a[k].offset;
    forall l | 0 <= l < k ensures b[l].Next() < i { assert a[..k][l] == b[..k][l]; }
    assert InRun(a, i);
    assert InRun(b, i);
    var l :| 0 <= l < |b| && b[l].offset <= i < b[l].Next();
    assert k <= l;
  }

  lemma EndsNoLater(a: seq<Page>, b: seq<Page>, fs: seq<bool>, lo: nat, hi: nat, k: nat)
    requires hi <= |fs|
    requires IsUnloadedRuns(a, fs, lo, hi) && IsUnloadedRuns(b, fs, lo, hi)
    requires k < |a| && k < |b| && a[..k] == b[..k] && a[k].offset == b[k].offset
    ensures b[k].Next() <= a[k].Next()
  {
    var i := a[k].Next();
    forall l | 0 <= l < |a| ensures !(a[l].offset <= i < a[l].Next()) {
      assert l < k ==> a[l].Next() < a[k].offset;
      assert k < l ==> i < a[l].offset;
    }
    assert !InRun(a, i);
    if i < hi {
      assert fs[i] && !InRun(b, i);
    }
  }

  function TotalBytes(runs: seq<Page>): nat {
    if runs == [] then 0 else TotalBytes(runs[..|runs| - 1]) + runs[|runs| - 1].bytes
  }

  /** Add the unloaded stretch [lo, hi) behind the runs found so far, merging if they touch. */
  function AddRun(runs: seq<Page>, lo: nat, hi: nat): seq<Page>
    requires lo < hi
  {
    var n := |runs|;
    if n != 0 && runs[n - 1].Next() == lo then runs[n - 1 := runs[n - 1].(bytes := runs[n - 1].bytes + (hi - lo))]
    else runs + [Page(lo, hi - lo, false)]
  }

  lemma RunsOverLoaded(runs: seq<Page>, fs: seq<bool>, lo: nat, mid: nat, hi: nat)
    requires mid <= hi <= |fs| && IsUnloadedRuns(runs, fs, lo, mid)
    requires forall i :: Max(lo, mid) <= i < hi ==> fs[i]
    ensures IsUnloadedRuns(runs, fs, lo, hi)
  {
    forall i | Max(lo, mid) <= i < hi ensures !InRun(runs, i) {}
  }

  lemma AddRunMember(runs: seq<Page>, lo: nat, hi: nat, i: nat)
    requires lo < hi
    ensures InRun(AddRun(runs, lo, hi), i) <==> InRun(runs, i) || lo <= i < hi
  {
    var more := AddRun(runs, lo, hi);
    if InRun(runs, i) {
      var k :| 0 <= k < |runs| && runs[k].offset <= i < runs[k].Next();
      assert more[k].offset <= i < more[k].Next();
    }
    if lo <= i < hi {
      assert more[|more| - 1].offset <= i < more[|more| - 1].Next();
    }
    if InRun(more, i) && !(lo <= i < hi) {
      var k :| 0 <= k < |more| && more[k].offset <= i < more[k].Next();
      assert runs[k].offset <= i < runs[k].Next();
    }
  }

  lemma RunsOverUnloaded(runs: seq<Page>, fs: seq<bool>, lo: nat, mid: nat, hi: nat)
    requires Max(lo, mid) < hi <= |fs| && IsUnloadedRuns(runs, fs, lo, mid)
    requires forall i :: Max(lo, mid) <= i < hi ==> !fs[i]
    ensures IsUnloadedRuns(AddRun(runs, Max(lo, mid), hi), fs, lo, hi)
  {
    var at := Max(lo, mid);
    var more := AddRun(runs, at, hi);
    forall i | lo <= i < hi
      ensures !fs[i] <==> InRun(more, i)
    {
      AddRunMember(runs, at, hi, i);
      if at <= i {
        assert !fs[i];
      }
    }
  }

  /** The runs after one more page p of a scan of the window [start, next). */
  function RunsAfter(runs: seq<Page>, p: Page, start: nat, next: nat): seq<Page> {
    if p.loaded || p.bytes == 0 || p.Next() <= start || next <= p.offset || next <= start then runs
    else AddRun(runs, Max(p.offset, start), Min(p.Next(), next))
  }

  function RunsOver(ps: seq<Page>, start: nat, next: nat): seq<Page> {
    if ps == [] then [] else RunsAfter(RunsOver(ps[..|ps| - 1], start, next), ps[|ps| - 1], start, next)
  }

  lemma RunsOverNext(ps: seq<Page>, k: nat, start: nat, next: nat)
    requires k < |ps|
    ensures RunsOver(ps[..k + 1], start, next) == RunsAfter(RunsOver(ps[..k], start, next), ps[k], start, next)
  {
    assert ps[..k + 1][..k] == ps[..k];
  }

  /** Once a page lies past the window nothing more is added. */
  lemma {:induction false} RunsOverStop(ps: seq<Page>, i: nat, k: nat, start: nat, next: nat)
    requires WellFormed(ps) && i < |ps| && next <= ps[i].offset && i <= k <= |ps|
    ensures RunsOver(ps[..k], start, next) == RunsOver(ps[..i], start, next)
    decreases k
  {
    if i < k {
      RunsOverStop(ps, i, k - 1, start, next);
      RunsOverNext(ps, k - 1, start, next);
      OffsetsAscend(ps);
    }
  }

  /** The scan of the first k pages finds exactly the unloaded areas among them. */
  lemma {:induction false} RunsOverExact(ps: seq<Page>, k: nat, start: nat, next: nat)
    requires WellFormed(ps) && k <= |ps| && start <= next
    ensures var fs := Flags(ps);
      var upTo := if k < |ps| then ps[k].offset else |fs|;
      upTo <= |fs| && IsUnloadedRuns(RunsOver(ps[..k], start, next), fs, start, Min(upTo, Min(next, |fs|)))
    decreases k
  {
    if k == 0 {
      if ps != [] { ScanStep(ps, 0); }
    } else {
      RunsOverExact(ps, k - 1, start, next);
      ScanStep(ps, k - 1);
      if k < |ps| { ScanStep(ps, k); }
      RunsStep(RunsOver(ps[..k - 1], start, next), Flags(ps), ps[k - 1], start, next);
      RunsOverNext(ps, k - 1, start, next);
    }
  }

  /** Reading one page that lies behind what has been read of the window [start, next). */
  lemma RunsStep(runs: seq<Page>, fs: seq<bool>, p: Page, start: nat, next: nat)
    requires start <= next && p.Next() <= |fs|
    requires forall i :: p.offset <= i < p.Next() ==> fs[i] == p.loaded
    requires IsUnloadedRuns(runs, fs, start, Min(p.offset, Min(next, |fs|)))
    ensures IsUnloadedRuns(RunsAfter(runs, p, start, next), fs, start, Min(p.Next(), Min(next, |fs|)))
  {
    var mid, hi := Min(p.offset, Min(next, |fs|)), Min(p.Next(), Min(next, |fs|));
    if p.loaded || hi <= Max(start, mid) {
      RunsOverLoaded(runs, fs, start, mid, hi);
    } else {
      RunsOverUnloaded(runs, fs, start, mid, hi);
    }
  }

  /** The runs of a window without its last run. */
  lemma DropLastRun(runs: seq<Page>, fs: seq<bool>, lo: nat, hi: nat)
    requires hi <= |fs| && runs != []
    requires IsUnloadedRuns(runs, fs, lo, hi)
    ensures var n := |runs| - 1;
      && lo <= runs[n].offset && runs[n].Next() <= hi
      && IsUnloadedRuns(runs[..n], fs, lo, runs[n].offset)
      && (forall i :: runs[n].offset <= i < runs[n].Next() ==> !fs[i])
      && (forall i :: runs[n].Next() <= i < hi ==> fs[i])
  {
    var n := |runs| - 1;
    var last, before := runs[n], runs[..n];
    forall k | 0 <= k < n ensures before[k].Next() < last.offset { assert runs[k].Next() < runs[n].offset; }
    forall i | lo <= i < hi
      ensures InRun(runs, i) <==> InRun(before, i) || last.offset <= i < last.Next()
    {
      if InRun(runs, i) {
        var k :| 0 <= k < |runs| && runs[k].offset <= i < runs[k].Next();
        assert k < n ==> before[k] == runs[k];
      }
      if InRun(before, i) {
        var k :| 0 <= k < |before| && before[k].offset <= i < before[k].Next();
        assert runs[k] == before[k];
      }
    }
    forall i | lo <= i < hi && last.Next() <= i ensures !InRun(before, i) {}
  }

  /** The runs of a window add up to the number of unloaded bytes in it. */
  lemma {:induction false} RunsTotal(runs: seq<Page>, fs: seq<bool>, lo: nat, hi: nat)
    requires hi <= |fs|
    requires IsUnloadedRuns(runs, fs, lo, hi)
    ensures TotalBytes(runs) == Unloaded(fs, lo, hi)
    decreases |runs|
  {
    if runs == [] {
      forall i | lo <= i < hi ensures fs[i] { assert !InRun(runs, i); }
      UnloadedZero(fs, lo, hi);
    } else {
      var n := |runs| - 1;
      DropLastRun(runs, fs, lo, hi);
      RunsTotal(runs[..n], fs, lo, runs[n].offset);
      UnloadedUniform(fs, lo, runs[n].offset, runs[n].Next(), false);
      UnloadedUniform(fs, lo, runs[n].Next(), hi, true);
    }
  }

  // ---------------------------------------------------------------------
  // Painting page by page
  // ---------------------------------------------------------------------

  /** The pages before i carry the painted flags, the pages from i on the old ones. */
  ghost predicate PaintedUpTo(ps: seq<Page>, i: nat, fs: seq<bool>, painted: seq<bool>)
    requires i <= |ps| && |painted| == |fs|
  {
    var n := |Flags(ps[..i])|;
    n <= |fs| && Flags(ps[..i]) == painted[..n] && Flags(ps[i..]) == fs[n..]
  }

  /** One more page, left or made to have flag c. */
  lemma PaintOne(ps: seq<Page>, qs: seq<Page>, i: nat, fs: seq<bool>, painted: seq<bool>, c: bool)
    requires i < |ps| == |qs| && Chain(ps, 0) && |painted| == |fs| == |Flags(ps)|
    requires PaintedUpTo(ps, i, fs, painted)
    requires Flags(qs[..i + 1]) == Flags(ps[..i]) + Repeat(ps[i].bytes, c) && qs[i + 1..] == ps[i + 1..]
    requires ps[i].Next() <= |fs|
    requires forall j :: ps[i].offset <= j < ps[i].Next() ==> painted[j] == c
    ensures PaintedUpTo(qs, i + 1, fs, painted)
  {
    var n, m := ps[i].offset, ps[i].bytes;
    assert n == |Flags(ps[..i])| by { PageAt(ps, i); }
    Snoc(ps, i);
    assert Flags(ps[i + 1..]) == Flags(ps[i..])[m..];
    assert fs[n..][m..] == fs[n + m..];
    assert painted[..n + m] == painted[..n] + Repeat(m, c);
  }

  lemma PaintStep(ps: seq<Page>, i: nat, fs: seq<bool>, start: nat, size: nat, b: bool)
    requires i < |ps| && Chain(ps, 0) && start + size < |fs| == |Flags(ps)|
    requires Aligned(ps, start) && Aligned(ps, start + size)
    requires PaintedUpTo(ps, i, fs, Paint(fs, start, size, b))
    ensures var painted := Paint(fs, start, size, b);
      if ps[i].End() < start then PaintedUpTo(ps, i + 1, fs, painted)
      else if start + size <= ps[i].offset then Flags(ps) == painted
      else
        var qs := ps[i := ps[i].(loaded := b)];
        Chain(qs, 0) && |Flags(qs)| == |fs| && PaintedUpTo(qs, i + 1, fs, painted)
        && Aligned(qs, start) && Aligned(qs, start + size)
  {
    PageAt(ps, i);
    if ps[i].End() < start {
      PaintSkips(ps, i, fs, Paint(fs, start, size, b), start);
    } else if start + size <= ps[i].offset {
      PaintRest(ps, i, fs, Paint(fs, start, size, b));
    } else {
      PaintHits(ps, i, fs, Paint(fs, start, size, b), b);
    }
  }

  /** A page behind the window ends the loop. */
  lemma PaintRest(ps: seq<Page>, i: nat, fs: seq<bool>, painted: seq<bool>)
    requires i < |ps| && Chain(ps, 0) && |painted| == |fs| == |Flags(ps)| && PaintedUpTo(ps, i, fs, painted)
    requires forall j :: ps[i].offset <= j < |fs| ==> painted[j] == fs[j]
    ensures Flags(ps) == painted
  {
    SplitAt(ps, i);
    assert painted[ps[i].offset..] == fs[ps[i].offset..];
  }

  /** A page within the window takes its flag. */
  lemma PaintHits(ps: seq<Page>, i: nat, fs: seq<bool>, painted: seq<bool>, b: bool)
    requires i < |ps| && Chain(ps, 0) && |painted| == |fs| == |Flags(ps)|
    requires ps[i].Next() <= |fs| && forall j :: ps[i].offset <= j < ps[i].Next() ==> painted[j] == b
    requires PaintedUpTo(ps, i, fs, painted)
    ensures var qs := ps[i := ps[i].(loaded := b)];
      Chain(qs, 0) && |Flags(qs)| == |fs| && PaintedUpTo(qs, i + 1, fs, painted)
  {
    RecolourKeeps(ps, i, b);
    PaintOne(ps, ps[i := ps[i].(loaded := b)], i, fs, painted, b);
    Snoc(ps, i);
    SplitAt(ps, i);
  }

  /** A page in front of the window stays as it is. */
  lemma PaintSkips(ps: seq<Page>, i: nat, fs: seq<bool>, painted: seq<bool>, start: nat)
    requires i < |ps| && Chain(ps, 0) && |painted| == |fs| == |Flags(ps)|
    requires ps[i].Next() <= start <= |fs| && painted[..start] == fs[..start]
    requires PaintedUpTo(ps, i, fs, painted)
    ensures PaintedUpTo(ps, i + 1, fs, painted)
  {
    PageAt(ps, i);
    SplitAt(ps, i);
    Snoc(ps, i);
    forall j | ps[i].offset <= j < ps[i].Next() ensures painted[j] == ps[i].loaded {
      assert Flags(ps)[j] == Flags(ps[i..])[j - ps[i].offset];
      assert painted[..start][j] == fs[..start][j];
    }
    PaintOne(ps, ps, i, fs, painted, ps[i].loaded);
  }
}
