/** The page list of one open file: a mutable list, split, merged, cut and painted in place. */
module PageLists {
  import opened Numbers
  import opened Pages

  class PageList {
    var pages: seq<Page>

    ghost predicate Valid()
      reads this
    {
      WellFormed(pages)
    }

    /** One flag per byte of the file: what the list stands for. */
    ghost function Loaded(): seq<bool>
      reads this
    {
      Flags(pages)
    }

    function Size(): (n: nat)
      requires Valid()
      reads this
      ensures n == |Loaded()|
    {
      SizeIsFlagCount(pages);
      SizeOf(pages)
    }

    constructor (size: nat, isLoaded: bool)
      ensures Valid() && Loaded() == Repeat(size, isLoaded) && Alternating(pages)
    {
      pages := [Page(0, size, isLoaded)];
      new;
      OnePage(size, isLoaded);
    }

    method Init(size: nat, isLoaded: bool)
      modifies this
      ensures Valid() && Loaded() == Repeat(size, isLoaded) && Alternating(pages)
      ensures pages == [Page(0, size, isLoaded)]
    {
      pages := [];
      pages := pages + [Page(0, size, isLoaded)];
      assert pages == [Page(0, size, isLoaded)];
      OnePage(size, isLoaded);
    }

    /** Merge neighbours with equal flags. */
    method Compress()
      requires Valid()
      modifies this
      ensures Valid() && Loaded() == old(Loaded())
      ensures Alternating(pages)
      ensures |old(pages)| <= 1 ==> pages == old(pages)
    {
      var isFirst, isLastLoaded := true, false;
      var i := 0;
      while i < |pages|
        invariant i <= |pages| && (isFirst <==> i == 0)
        invariant 0 < i ==> isLastLoaded == pages[i - 1].loaded
        invariant Valid() && Loaded() == old(Loaded())
        invariant forall k :: 0 < k < i ==> pages[k - 1].loaded != pages[k].loaded
        invariant |old(pages)| <= 1 ==> pages == old(pages)
        decreases |pages| - i
      {
        if isFirst {
          isFirst, isLastLoaded, i := false, pages[i].loaded, i + 1;
        } else if isLastLoaded == pages[i].loaded {
          ManyPagesChain(pages);
          MergeKeeps(pages, i);
          var before := pages[i - 1];
          pages := pages[..i - 1] + [before.(bytes := before.bytes + pages[i].bytes)] + pages[i + 1..];
        } else {
          isLastLoaded, i := pages[i].loaded, i + 1;
        }
      }
    }

    /** Make newPos a page boundary, without changing any flag. */
    method Parse(newPos: nat) returns (found: bool)
      requires Valid()
      modifies this
      ensures Valid() && Loaded() == old(Loaded())
      ensures Aligned(pages, newPos)
      ensures forall p: nat :: Aligned(old(pages), p) ==> Aligned(pages, p)
      ensures newPos < |Loaded()| ==> found
      ensures found ==> exists k :: 0 <= k < |pages| && pages[k].offset == newPos
    {
      ghost var ps := pages;
      if Chain(ps, 0) { Layout(ps); }
      OffsetsAscend(ps);
      var i := 0;
      while i < |pages|
        invariant i <= |pages| && pages == ps
        invariant 0 < i < |ps| ==> ps[i].offset == ps[i - 1].Next()
        invariant forall k :: 0 <= k < i ==> ps[k].Next() <= newPos
      {
        if newPos == pages[i].offset {
          return true;
        } else if pages[i].offset < newPos < pages[i].Next() {
          ManyPagesChain(ps);
          SplitKeeps(ps, i, newPos);
          SplitAligns(ps, i, newPos);
          pages := InsertBefore(pages, i, newPos);
          return true;
        }
        i := i + 1;
      }
      return false;
    }

    /** Shorten page i to the part from newPos on and insert its left part in front of it. */
    static function InsertBefore(ps: seq<Page>, i: nat, newPos: nat): (qs: seq<Page>)
      requires i < |ps| && ps[i].offset < newPos < ps[i].Next()
      ensures qs == SplitPage(ps, i, newPos) && qs[i + 1].offset == newPos
    {
      var left := Page(ps[i].offset, newPos - ps[i].offset, ps[i].loaded);
      var rest := ps[i].(bytes := ps[i].bytes - (newPos - ps[i].offset), offset := newPos);
      ps[..i] + [left] + [rest] + ps[i + 1..]
    }

    method Resize(size: nat, isLoaded: bool)
      requires Valid()
      modifies this
      ensures Valid() && Alternating(pages)
      ensures Loaded() == ResizedFlags(old(Loaded()), size, isLoaded)
      ensures |old(Loaded())| == 0 ==> pages == [Page(0, size, isLoaded)]
    {
      var total := Size();
      if total == 0 {
        Init(size, isLoaded);
      } else if total < size {
        ManyPagesChain(pages);
        AppendKeeps(pages, size - total, isLoaded);
        pages := pages + [Page(total, size - total, isLoaded)];
      } else if size < total {
        Cut(size);
      }
      Compress();
    }

    /** The cutting loop of Resize: erase pages past size, shorten the one across it. */
    method Cut(size: nat)
      requires Valid() && size < |Loaded()|
      modifies this
      ensures Valid() && Loaded() == old(Loaded())[..size]
    {
      ghost var fs := Loaded();
      ManyPagesChain(pages);
      var i := 0;
      ghost var cut, stay := false, [];  // once cut, the front of the list that stays
      while i < |pages|
        invariant i <= |pages| && EndBy(pages[..i], size)
        invariant if cut then i <= |stay| && CutDown(pages, stay, fs, size) else pages == old(pages)
        decreases |pages| - i, !cut
      {
        NotAcross(cut, pages, stay, fs, size, i);
        if pages[i].Next() <= size {
          i := i + 1;
        } else if size <= pages[i].offset {
          if !cut {
            CutAtBoundary(pages, i, size);
            cut, stay := true, pages[..i];
          }
          EraseRest(pages, stay, fs, size, i);
          pages := pages[..i] + pages[i + 1..];
        } else {
          var short := pages[i].(bytes := size - pages[i].offset);
          CutInside(pages, i, size);
          pages := pages[i := short];
          cut, stay := true, pages[..i + 1];
        }
      }
      assert pages[..i] == pages;
      if !cut {
        ChainSize(pages, 0);
      }
    }

    /** Paint [start, start+size) with isLoaded, growing the list if it is too short. */
    method SetPageLoadedStatus(start: nat, size: nat, isLoaded: bool, isCompress: bool)
      requires Valid()
      modifies this
      ensures Valid() && Loaded() == Paint(old(Loaded()), start, size, isLoaded)
      ensures isCompress ==> Alternating(pages) && pages == SetPages(old(pages), start, size, isLoaded)
    {
      SetArea(start, size, isLoaded);
      if isCompress {
        Compress();
        CompressedIsSet(old(pages), pages, start, size, isLoaded);
      }
    }

    /** SetPageLoadedStatus before it compresses. */
    method SetArea(start: nat, size: nat, isLoaded: bool)
      requires Valid()
      modifies this
      ensures Valid() && Loaded() == Paint(old(Loaded()), start, size, isLoaded)
      ensures |old(Loaded())| == 0 && start == 0 ==> pages == [Page(0, size, isLoaded)]
    {
      var nowSize := Size();
      if nowSize <= start + size {
        SetTail(start, size, isLoaded);
      } else {
        var _ := Parse(start);
        var _ := Parse(start + size);
        PaintPages(start, size, isLoaded);
      }
    }

    /** The area reaches the end of the file: cut or grow to its start, then grow to its end. */
    method SetTail(start: nat, size: nat, isLoaded: bool)
      requires Valid() && |Loaded()| <= start + size
      modifies this
      ensures Valid() && Loaded() == Paint(old(Loaded()), start, size, isLoaded)
      ensures |old(Loaded())| == 0 && start == 0 ==> pages == [Page(0, size, isLoaded)]
    {
      ResizedIsPaint(Loaded(), start, size, isLoaded);
      var nowSize := Size();
      if nowSize <= start {
        if nowSize < start {
          Resize(start, false);
        }
        Resize(start + size, isLoaded);
      } else {
        Resize(start, false);
        Resize(start + size, isLoaded);
      }
    }

    /** The painting loop of SetPageLoadedStatus, run when both ends are page boundaries. */
    method PaintPages(start: nat, size: nat, isLoaded: bool)
      requires Valid() && start + size < |Loaded()|
      requires Aligned(pages, start) && Aligned(pages, start + size)
      modifies this
      ensures Valid() && Loaded() == Paint(old(Loaded()), start, size, isLoaded)
    {
      ghost var fs := Loaded();
      ghost var painted := Paint(fs, start, size, isLoaded);
      ManyPagesChain(pages);
      assert pages[..0] == [] && pages[0..] == pages;
      var i := 0;
      while i < |pages|
        invariant i <= |pages| && Chain(pages, 0) && |Flags(pages)| == |fs|
        invariant Aligned(pages, start) && Aligned(pages, start + size)
        invariant PaintedUpTo(pages, i, fs, painted)
      {
        PaintStep(pages, i, fs, start, size, isLoaded);
        if pages[i].End() < start {
        } else if start + size <= pages[i].offset {
          break;
        } else {
          pages := pages[i := pages[i].(loaded := isLoaded)];
        }
        i := i + 1;
      }
      SplitAt(pages, i);
      if i == |pages| {
        assert pages[i..] == [];
      }
    }

    /** Is every byte of the window loaded?  A size of 0 means "to the end".  The zero-byte page
        of an empty file answers with its own flag. */
    method IsPageLoaded(start: nat, size: nat) returns (r: bool)
      requires Valid()
      ensures 0 < |Loaded()| || pages == [] ==>
        (r <==> AllLoaded(Loaded(), start, size))
      ensures |Loaded()| == 0 && pages != [] ==> r == (pages[0].loaded || 0 < start)
    {
      ghost var fs := Loaded();
      ghost var upTo: nat := 0;
      if pages != [] { ScanStep(pages, 0); }
      var i := 0;
      while i < |pages|
        invariant i <= |pages|
        invariant upTo <= |fs| && upTo == if i == |pages| then |fs| else pages[i].offset
        invariant forall j :: start <= j < upTo ==> fs[j]
        invariant size != 0 && i < |pages| ==> upTo < start + size
        invariant |fs| == 0 && i == 1 ==> pages[0].loaded || 0 < start
      {
        ScanStep(pages, i);
        upTo := pages[i].Next();
        if pages[i].End() < start {
          i := i + 1;
          continue;
        }
        if !pages[i].loaded {
          assert 0 < |fs| ==> !fs[Max(start, pages[i].offset)];
          return false;
        }
        if size != 0 && start + size <= pages[i].Next() {
          break;
        }
        i := i + 1;
      }
      return true;
    }

    /** How many bytes of [start, start+size) are not loaded.  A size of 0 is not special here. */
    method GetTotalUnloadedPageSize(start: nat, size: nat) returns (restSize: nat)
      requires Valid()
      ensures restSize == Unloaded(Loaded(), start, Min(start + size, |Loaded()|))
    {
      restSize := 0;
      var next := start + size;
      ghost var fs, w := Loaded(), Min(next, |Loaded()|);
      ghost var upTo: nat := 0;
      if pages != [] { ScanStep(pages, 0); }
      var i := 0;
      while i < |pages|
        invariant i <= |pages|
        invariant upTo == if i == |pages| then |fs| else pages[i].offset
        invariant restSize == Unloaded(fs, start, Min(upTo, w))
      {
        ScanStep(pages, i);
        PageShare(fs, pages[i].offset, pages[i].Next(), pages[i].loaded, start, next);
        upTo := pages[i].Next();
        if pages[i].Next() <= start {
          i := i + 1;
          continue;
        }
        if next <= pages[i].offset {
          break;
        }
        if pages[i].loaded {
          i := i + 1;
          continue;
        }
        var tmpSize;
        if pages[i].offset <= start {
          tmpSize := if pages[i].Next() <= next then pages[i].Next() - start else next - start;
        } else {
          tmpSize := if pages[i].Next() <= next then pages[i].Next() - pages[i].offset else next - pages[i].offset;
        }
        restSize := restSize + tmpSize;
        i := i + 1;
      }
    }

    /** The unloaded areas of the window, in maximal runs.  A size of 0 means "to the end". */
    method GetUnloadedPages(start: nat, size: nat) returns (unloaded: seq<Page>)
      requires Valid()
      ensures IsUnloadedRuns(unloaded, Loaded(), start,
                             if size == 0 then |Loaded()| else Min(start + size, |Loaded()|))
    {
      var size' := if size == 0 && start < Size() then Size() - start else size;
      unloaded := UnloadedBetween(start, start + size');
    }

    /** The scan of GetUnloadedPages. */
    method UnloadedBetween(start: nat, next: nat) returns (unloaded: seq<Page>)
      requires Valid() && start <= next && (start < next || |Loaded()| <= start)
      ensures IsUnloadedRuns(unloaded, Loaded(), start, Min(next, |Loaded()|))
    {
      unloaded := [];
      var i := 0;
      while i < |pages|
        invariant i <= |pages| && unloaded == RunsOver(pages[..i], start, next)
      {
        RunsOverNext(pages, i, start, next);
        ScanStep(pages, i);
        if pages[i].Next() <= start {
          i := i + 1;
          continue;
        }
        if next <= pages[i].offset {
          RunsOverStop(pages, i, |pages|, start, next);
          break;
        }
        if pages[i].loaded {
          i := i + 1;
          continue;
        }
        var pageStart, pageNext := Max(pages[i].offset, start), Min(pages[i].Next(), next);
        unloaded := AddRun(unloaded, pageStart, pageNext);
        i := i + 1;
      }
      assert pages[..|pages|] == pages;
      RunsOverExact(pages, |pages|, start, next);
    }
  }
}
