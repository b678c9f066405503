/** Reading a value back out of the query string of a part's URL. */
module Keywords {
  import opened Text

  predicate OccursAt(s: string, k: string, i: nat) {
    i + |k| <= |s| && s[i..i + |k|] == k
  }

  /** string::find: the first position from `start` on, or nothing. */
  function Find(s: string, k: string, start: nat): (r: Option<nat>)
    ensures r.Some? ==> start <= r.value && OccursAt(s, k, r.value)
    ensures forall i :: start <= i && (r.Some? ==> i < r.value) ==> !OccursAt(s, k, i)
    decreases if start <= |s| then |s| - start + 1 else 0
  {
    if |s| < start + |k| then None
    else if OccursAt(s, k, start) then Some(start)
    else Find(s, k, start + 1)
  }

  /** get_keyword_value: what follows the first keyword and its '=', up to the next '&'. */
  function GetKeywordValue(target: string, keyword: string): Result<string> {
    match Find(target, keyword, 0)
    case None => Err(Malformed)
    case Some(p) =>
      var at := p + |keyword|;
      if at == |target| then Err(OutOfRange)
      else if target[at] != '=' then Err(Malformed)
      else
        match Find(target, "&", at + 1)
        case None => Ok(target[at + 1..])
        case Some(end) => Ok(target[at + 1..end])
  }

  function LeadingDigits(s: string): (d: string)
    ensures AllDigits(d)
  {
    if s != "" && IsDigit(s[0]) then [s[0]] + LeadingDigits(s[1..]) else ""
  }

  function AToI(s: string): int {
    var t := SkipSpaces(s);
    if t != "" && t[0] == '-' then -(Value(LeadingDigits(t[1..])) as int)
    else if t != "" && t[0] == '+' then Value(LeadingDigits(t[1..]))
    else Value(LeadingDigits(t))
  }

  lemma {:induction false} LeadingDigitsWhole(s: string)
    requires AllDigits(s)
    ensures LeadingDigits(s) == s
  {
    if s != "" {
      LeadingDigitsWhole(s[1..]);
    }
  }

  lemma AToIDecimal(n: nat)
    ensures AToI(Decimal(n)) == n
  {
    assert IsDigit(Decimal(n)[0]);
    LeadingDigitsWhole(Decimal(n));
    DecimalValue(n);
  }

  function PartUrl(base: string, num: nat, uploadId: string): string {
    base + ("?partNumber=" + (Decimal(num) + ("&uploadId=" + uploadId)))
  }

  /** A keyword without '?' that is not in the base does not occur before the '?' either. */
  lemma NotBefore(base: string, rest: string, k: string, i: nat)
    requires '?' !in k && k != "" && i <= |base|
    requires forall j :: !OccursAt(base, k, j)
    ensures !OccursAt(base + ("?" + rest), k, i)
  {
    var s := base + ("?" + rest);
    if i + |k| <= |base| {
      assert s[i..i + |k|] == base[i..i + |k|];
      assert !OccursAt(base, k, i);
    } else if i + |k| <= |s| {
      assert s[i..i + |k|][|base| - i] == '?' && k[|base| - i] in k;
    }
  }

  /** The first keyword of a URL lies in the base if it occurs there at all; it is never followed by '='. */
  lemma KeywordInBase(base: string, rest: string, k: string, j: nat)
    requires '=' !in base && OccursAt(base, k, j)
    ensures GetKeywordValue(base + ("?" + rest), k).Err?
  {
    var s := base + ("?" + rest);
    assert s[j..j + |k|] == base[j..j + |k|];
    assert OccursAt(s, k, j);
    var p := Find(s, k, 0).value;
    assert p + |k| <= |base|;
    assert s[p + |k|] == (if p + |k| < |base| then base[p + |k|] else '?');
  }

  /** What comes between the '?' and the upload id. */
  function Middle(num: nat): string { "partNumber=" + (Decimal(num) + "&") }

  lemma UrlShape(base: string, num: nat, id: string)
    ensures PartUrl(base, num, id) == base + ("?" + (Middle(num) + ("uploadId=" + id)))
  {
    var d := Decimal(num);
    assert "?partNumber=" + (d + ("&uploadId=" + id)) == "?" + (("partNumber=" + (d + "&")) + ("uploadId=" + id));
  }

  /** A keyword found first at p, followed by '=' and a value that ends at e. */
  lemma KeywordValueAt(s: string, k: string, p: nat, e: nat)
    requires OccursAt(s, k, p) && (forall i :: 0 <= i < p ==> !OccursAt(s, k, i))
    requires p + |k| < e <= |s| && s[p + |k|] == '='
    requires '&' !in s[p + |k| + 1..e] && (e < |s| ==> s[e] == '&')
    ensures GetKeywordValue(s, k) == Ok(s[p + |k| + 1..e])
  {
    var v := p + |k| + 1;
    assert Find(s, k, 0) == Some(p);
    forall i | v <= i < e ensures !OccursAt(s, "&", i) { assert s[i] == s[v..e][i - v]; }
    if e < |s| {
      assert s[e..e + 1] == "&";
      assert OccursAt(s, "&", e) && Find(s, "&", v) == Some(e);
    } else {
      assert Find(s, "&", v) == None;
      assert s[v..] == s[v..e];
    }
  }

  /** A keyword found first at the end of pre, with its value behind it. */
  lemma KeywordValue(pre: string, k: string, d: string, post: string)
    requires '&' !in d && (post == "" || post[0] == '&')
    requires forall i :: 0 <= i < |pre| ==> !OccursAt(pre + (k + ("=" + (d + post))), k, i)
    ensures GetKeywordValue(pre + (k + ("=" + (d + post))), k) == Ok(d)
  {
    var s := pre + (k + ("=" + (d + post)));
    var p, v := |pre|, |pre| + |k| + 1;
    assert s[p..p + |k|] == k;
    assert s[v..v + |d|] == d;
    assert post != "" ==> s[v + |d|] == post[0];
    KeywordValueAt(s, k, p, v + |d|);
  }

  ghost predicate Holds(s: string, k: string) { exists j :: OccursAt(s, k, j) }

  /** The part number is read back as it was put in, unless the path itself holds the keyword: then
      the lookup fails and the retry is refused. */
  lemma PartNumberReadBack(base: string, num: nat, id: string)
    requires '=' !in base
    ensures var r := GetKeywordValue(PartUrl(base, num, id), "partNumber");
      if Holds(base, "partNumber") then r.Err? else r == Ok(Decimal(num))
  {
    var k, d, post := "partNumber", Decimal(num), "&" + ("uploadId=" + id);
    var rest := Middle(num) + ("uploadId=" + id);
    UrlShape(base, num, id);
    if Holds(base, k) {
      var j :| OccursAt(base, k, j);
      KeywordInBase(base, rest, k, j);
    } else {
      var pre := base + "?";
      assert rest == k + ("=" + (d + post));
      assert base + ("?" + rest) == pre + (k + ("=" + (d + post)));
      forall i | 0 <= i < |pre| ensures !OccursAt(base + ("?" + rest), k, i) { NotBefore(base, rest, k, i); }
      KeywordValue(pre, k, d, post);
    }
  }

  /** No upload id keyword starts inside the part number. */
  lemma NotInMiddle(pre: string, num: nat, rest: string, i: nat)
    requires |pre| <= i < |pre| + |Middle(num)|
    ensures !OccursAt(pre + (Middle(num) + rest), "uploadId", i)
  {
    var s, x, d := pre + (Middle(num) + rest), i - |pre|, Decimal(num);
    assert s[i] == Middle(num)[x];
    if x < 11 {
      assert Middle(num)[x] == "partNumber="[x];
      assert x == 5 ==> s[i + 1] == Middle(num)[6] == "partNumber="[6];
    } else {
      assert Middle(num)[x] == (d + "&")[x - 11];
    }
    assert s[i] != 'u' || (i + 1 < |s| && s[i + 1] != 'p');
    if i + 8 <= |s| {
      assert s[i..i + 8][0] == s[i] && s[i..i + 8][1] == s[i + 1];
    }
  }

  /** The upload id is read back under the same condition. */
  lemma UploadIdReadBack(base: string, num: nat, id: string)
    requires '=' !in base && '&' !in id
    ensures var r := GetKeywordValue(PartUrl(base, num, id), "uploadId");
      if Holds(base, "uploadId") then r.Err? else r == Ok(id)
  {
    var k, rest := "uploadId", Middle(num) + ("uploadId=" + id);
    UrlShape(base, num, id);
    if Holds(base, k) {
      var j :| OccursAt(base, k, j);
      KeywordInBase(base, rest, k, j);
    } else {
      var url := base + ("?" + rest);
      var pre := (base + "?") + Middle(num);
      assert url == pre + (k + ("=" + (id + "")));
      assert url == (base + "?") + rest;
      forall i | 0 <= i < |pre| ensures !OccursAt(url, k, i) {
        if i <= |base| { NotBefore(base, rest, k, i); } else { NotInMiddle(base + "?", num, "uploadId=" + id, i); }
      }
      KeywordValue(pre, k, id, "");
    }
  }

  /** The part number in a URL, if it can be found. */
  function PartNumberIn(url: string): Option<int> {
    match GetKeywordValue(url, "partNumber")
    case Ok(text) => Some(AToI(text))
    case Err(_) => None
  }

  function UploadIdIn(url: string): Option<string> {
    match GetKeywordValue(url, "uploadId")
    case Ok(id) => Some(id)
    case Err(_) => None
  }

  lemma UrlReadsBack(base: string, num: nat, id: string)
    requires '=' !in base && '&' !in id
    ensures PartNumberIn(PartUrl(base, num, id)) == if Holds(base, "partNumber") then None else Some(num)
    ensures UploadIdIn(PartUrl(base, num, id)) == if Holds(base, "uploadId") then None else Some(id)
  {
    var url := PartUrl(base, num, id);
    assert PartNumberIn(url) == if Holds(base, "partNumber") then None else Some(num) by {
      PartNumberReadBack(base, num, id);
      AToIDecimal(num);
    }
    assert UploadIdIn(url) == if Holds(base, "uploadId") then None else Some(id) by {
      UploadIdReadBack(base, num, id);
    }
  }
}
