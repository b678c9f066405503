/** The text of a cache stat file: printing a page list and reading it back. */
module PageText {
  import opened Text
  import opened Pages
  import opened PageLists

  function Line(p: Page): string {
    Decimal(p.offset) + ":" + Decimal(p.bytes) + ":" + (if p.loaded then "1" else "0")
  }

  /** All page lines, separated by newlines. */
  function Body(ps: seq<Page>): string {
    if ps == [] then "" else if |ps| == 1 then Line(ps[0]) else Line(ps[0]) + "\n" + Body(ps[1..])
  }

  function Print(ps: seq<Page>): string {
    Decimal(SizeOf(ps)) + Following(ps)
  }

  function Following(ps: seq<Page>): string { if ps == [] then "" else "\n" + Body(ps) }

  /** One line, as three numbers; the third says "loaded" only if it is 1. */
  function ReadLine(line: string): (r: Result<(int, int, bool)>)
    ensures r.Err? ==> r.error != DifferentSize
  {
    match GetLine(line, ':')
    case None => Err(Malformed)
    case Some(a) =>
      match StrToOff(a.text)
      case Err(e) => Err(e)
      case Ok(offset) =>
        match GetLine(a.rest, ':')
        case None => Err(Malformed)
        case Some(b) =>
          match StrToOff(b.text)
          case Err(e) => Err(e)
          case Ok(size) =>
            match GetLine(b.rest, ':')
            case None => Err(Malformed)
            case Some(c) =>
              match StrToOff(c.text)
              case Err(e) => Err(e)
              case Ok(flag) => Ok((offset, size, flag == 1))
  }

  /** Set the area of every line, in order, on the list ps. */
  function ReadBody(body: string, ps: seq<Page>): Result<seq<Page>>
    decreases |body|
  {
    match GetLine(body, '\n')
    case None => Ok(ps)
    case Some(p) =>
      match ReadLine(p.text)
      case Err(e) => Err(e)
      case Ok((offset, size, loaded)) =>
        if offset < 0 || size < 0 then Err(NotModelled)
        else ReadBody(p.rest, SetPages(ps, offset, size, loaded))
  }

  /** The page list a whole stat file stands for. */
  function ReadText(text: string): Result<seq<Page>> {
    if text == "" then Ok([Page(0, 0, false)])
    else
      match GetLine(CString(text), '\n')
      case None => Err(Malformed)
      case Some(p) =>
        match StrToOff(p.text)
        case Err(e) => Err(e)
        case Ok(total) =>
          match ReadBody(p.rest, [])
          case Err(e) => Err(e)
          case Ok(ps) => if total == SizeOf(ps) then Ok(ps) else Err(DifferentSize)
  }

  // ---------------------------------------------------------------------
  // The round trip
  // ---------------------------------------------------------------------

  lemma LineReadsBack(p: Page)
    requires p.Next() <= LLONG_MAX
    ensures Line(p) != "" && '\n' !in Line(p) && '\0' !in Line(p)
    ensures ReadLine(Line(p)) == Ok((p.offset, p.bytes, p.loaded))
  {
    var a, b, c := Decimal(p.offset), Decimal(p.bytes), if p.loaded then "1" else "0";
    assert ':' !in a && '\n' !in a && '\0' !in a;
    assert ':' !in b && '\n' !in b && '\0' !in b;
    assert Line(p) == a + ":" + (b + ":" + c);
    GetLineSplits(a, b + ":" + c, ':');
    GetLineSplits(b, c, ':');
    GetLineSplits(c, "", ':');
    DecimalReadsBack(p.offset);
    DecimalReadsBack(p.bytes);
    DecimalReadsBack(if p.loaded then 1 else 0);
  }

  /** Reading the lines of further pages rebuilds them behind the pages already there. */
  lemma {:induction false} BodyReadsBack(done: seq<Page>, ps: seq<Page>)
    requires Chain(done + ps, 0) && Alternating(done + ps) && |Flags(done + ps)| <= LLONG_MAX
    ensures ReadBody(Body(ps), done) == Ok(done + ps)
    ensures '\0' !in Body(ps)
    decreases |ps|
  {
    if ps == [] {
      assert done + ps == done;
    } else {
      var p, rest := ps[0], ps[1..];
      assert done + ps == (done + [p]) + rest;
      NextPageSet(done, p, rest);
      LineReadsBack(p);
      BodyReadsBack(done + [p], rest);
      if rest == [] {
        GetLineSplits(Line(p), "", '\n');
      } else {
        GetLineSplits(Line(p), Body(rest), '\n');
        assert Body(ps) == Line(p) + ['\n'] + Body(rest);
      }
    }
  }

  lemma NextPageSet(done: seq<Page>, p: Page, rest: seq<Page>)
    requires Chain(done + [p] + rest, 0) && Alternating(done + [p] + rest)
    ensures SetPages(done, p.offset, p.bytes, p.loaded) == done + [p]
    ensures p.Next() <= |Flags(done + [p] + rest)|
  {
    var all := done + [p] + rest;
    var k := |done|;
    assert all[..k] == done && all[k] == p && all[..k + 1] == done + [p];
    PageAt(all, k);
    SplitAt(all, k);
    SplitAt(all, k + 1);
    Snoc(all, k);
    assert Alternating(done + [p]) by {
      forall j | 0 < j < |done + [p]| ensures (done + [p])[j - 1].loaded != (done + [p])[j].loaded {
        assert all[j - 1].loaded != all[j].loaded;
      }
    }
    if |Flags(done)| != 0 {
      assert Paint(Flags(done), p.offset, p.bytes, p.loaded) == Flags(done + [p]);
      CanonicalUnique(done + [p], Canonical(Flags(done + [p])), 0);
    }
  }

  lemma BodyWhole(ps: seq<Page>)
    requires ps != [] && WellFormed(ps) && Alternating(ps) && |Flags(ps)| <= LLONG_MAX
    ensures ReadBody(Body(ps), []) == Ok(ps) && '\0' !in Body(ps)
  {
    if Chain(ps, 0) {
      assert [] + ps == ps;
      BodyReadsBack([], ps);
    } else {
      LineReadsBack(ps[0]);
      GetLineSplits(Line(ps[0]), "", '\n');
      assert ps == [ps[0]];
    }
  }

  lemma HeaderSplits(head: string, rest: string)
    requires '\n' !in head && '\0' !in head && '\0' !in rest
    ensures var text := head + ("\n" + rest);
      CString(text) == text && GetLine(text, '\n') == Some(Piece(head, rest))
  {
    var text := head + ("\n" + rest);
    assert text == head + ['\n'] + rest;
    GetLineSplits(head, rest, '\n');
    CStringWhole(text);
  }

  lemma TextOf(n: nat, head: string, body: string, ps: seq<Page>)
    requires '\n' !in head && '\0' !in head && '\0' !in body && StrToOff(head) == Ok(n)
    requires ps != [] && ReadBody(body, []) == Ok(ps) && SizeOf(ps) == n
    ensures ReadText(head + ("\n" + body)) == Ok(ps)
  {
    HeaderSplits(head, body);
  }

  /** Printing any compressed page list and reading the text back gives the very same list. */
  lemma RoundTrip(ps: seq<Page>)
    requires WellFormed(ps) && Alternating(ps) && |Flags(ps)| <= LLONG_MAX
    ensures ReadText(Print(ps)) == Ok(ps)
  {
    SizeIsFlagCount(ps);
    if ps == [] {
      assert Print(ps) == Decimal(0) == "0" && "0"[1..] == "";
    } else {
      BodyWhole(ps);
      DecimalReadsBack(SizeOf(ps));
      TextOf(SizeOf(ps), Decimal(SizeOf(ps)), Body(ps), ps);
    }
  }

  /** Whatever text is read successfully, the list is well-formed and its size is the header's. */
  lemma ReadIsWellFormed(text: string)
    requires ReadText(text).Ok?
    ensures var ps := ReadText(text).value;
      && WellFormed(ps) && Alternating(ps)
      && (text != "" ==> StrToOff(GetLine(CString(text), '\n').value.text) == Ok(|Flags(ps)|))
  {
    var ps := ReadText(text).value;
    OnePage(0, false);
    if text != "" {
      BodyIsWellFormed(GetLine(CString(text), '\n').value.rest, []);
    }
    SizeIsFlagCount(ps);
  }

  lemma {:induction false} BodyIsWellFormed(body: string, ps: seq<Page>)
    requires WellFormed(ps) && Alternating(ps)
    requires ReadBody(body, ps).Ok?
    ensures WellFormed(ReadBody(body, ps).value) && Alternating(ReadBody(body, ps).value)
    decreases |body|
  {
    match GetLine(body, '\n')
    case None =>
    case Some(p) =>
      var (offset, size, loaded) := ReadLine(p.text).value;
      BodyIsWellFormed(p.rest, SetPages(ps, offset, size, loaded));
  }

  // ---------------------------------------------------------------------
  // Writing and reading in place
  // ---------------------------------------------------------------------

  method Save(list: PageList) returns (text: string)
    requires list.Valid()
    ensures text == Print(list.pages)
  {
    var ps := list.pages;
    SizeIsFlagCount(ps);
    text := Decimal(list.Size());
    var i := 0;
    assert ps[0..] == ps;
    while i < |ps|
      invariant i <= |ps| && Print(ps) == text + Following(ps[i..])
    {
      FollowingSplit(ps, i, text);
      text := text + ("\n" + Line(ps[i]));
      i := i + 1;
    }
  }

  lemma FollowingSplit(ps: seq<Page>, i: nat, text: string)
    requires i < |ps|
    ensures text + Following(ps[i..]) == text + ("\n" + Line(ps[i])) + Following(ps[i + 1..])
  {
    assert ps[i..][1..] == ps[i + 1..];
    var line, rest := "\n" + Line(ps[i]), Following(ps[i + 1..]);
    assert Following(ps[i..]) == line + rest;
    Reassociate(text, line, rest);
  }

  method Load(list: PageList, text: string) returns (r: Result<()>)
    requires list.Valid()
    modifies list
    ensures list.Valid()
    ensures match ReadText(text)
      case Ok(ps) => r.Ok? && list.pages == ps
      case Err(e) => r == Err(e) && (e == DifferentSize ==> list.pages == [])
  {
    if text == "" {
      list.Init(0, false);
      return Ok(());
    }
    list.pages := [];
    var first := GetLine(CString(text), '\n');
    if first.None? {
      return Err(Malformed);
    }
    var total := StrToOff(first.value.text);
    if total.Err? {
      return Err(total.error);
    }
    var stream := first.value.rest;
    while true
      invariant list.Valid()
      invariant ReadBody(stream, list.pages) == ReadBody(first.value.rest, [])
      decreases |stream|
    {
      var line := GetLine(stream, '\n');
      if line.None? {
        break;
      }
      var entry := ReadLine(line.value.text);
      if entry.Err? {
        if entry.error == Malformed {
          list.pages := [];
        }
        return Err(entry.error);
      }
      var (offset, size, loaded) := entry.value;
      if offset < 0 || size < 0 {
        return Err(NotModelled);
      }
      list.SetPageLoadedStatus(offset, size, loaded, true);
      stream := line.value.rest;
    }
    SizeIsFlagCount(list.pages);
    if total.value != list.Size() {
      list.pages := [];
      return Err(DifferentSize);
    }
    return Ok(());
  }
}
