/** The request headers kept in signing order, and the two texts that are made from them for the
    signature (AWS Signature Version 4, "Create a canonical request"). */
module HeaderLists {
  import opened Text

  // ---------------------------------------------------------------------
  // Case folding, comparing, trimming
  // ---------------------------------------------------------------------

  function LowerChar(c: char): char {
    if 'A' <= c <= 'Z' then c - 'A' + 'a' else c
  }

  function Lower(s: string): (t: string)
    ensures |t| == |s| && forall i :: 0 <= i < |s| ==> t[i] == LowerChar(s[i])
  {
    seq(|s|, i requires 0 <= i < |s| => LowerChar(s[i]))
  }

  /** strcasecmp. */
  function Compare(a: string, b: string): int {
    if a == [] && b == [] then 0
    else if a == [] then -1
    else if b == [] then 1
    else if LowerChar(a[0]) < LowerChar(b[0]) then -1
    else if LowerChar(a[0]) > LowerChar(b[0]) then 1
    else Compare(a[1..], b[1..])
  }

  lemma {:induction false} CompareTurned(a: string, b: string)
    ensures Compare(a, b) == -Compare(b, a)
  {
    if a != [] && b != [] {
      CompareTurned(a[1..], b[1..]);
    }
  }

  lemma {:induction false} CompareEqual(a: string, b: string)
    ensures Compare(a, b) == 0 <==> Lower(a) == Lower(b)
  {
    if a != [] && b != [] {
      CompareEqual(a[1..], b[1..]);
      assert Lower(a) == [LowerChar(a[0])] + Lower(a[1..]);
      assert Lower(b) == [LowerChar(b[0])] + Lower(b[1..]);
      if Lower(a) == Lower(b) {
        assert Lower(a)[0] == Lower(b)[0] && Lower(a)[1..] == Lower(b)[1..];
      }
    }
  }

  lemma {:induction false} CompareChains(a: string, b: string, c: string)
    ensures Compare(a, b) <= 0 && Compare(b, c) < 0 ==> Compare(a, c) < 0
    ensures Compare(a, b) < 0 && Compare(b, c) <= 0 ==> Compare(a, c) < 0
    ensures Compare(a, b) == 0 ==> Compare(a, c) == Compare(b, c)
    decreases |a|
  {
    if a != [] && b != [] && c != [] {
      CompareChains(a[1..], b[1..], c[1..]);
    }
  }

  predicate IsBlank(c: char) { c in " \t\r\n" }

  function TrimLeft(s: string): string { if s != "" && IsBlank(s[0]) then TrimLeft(s[1..]) else s }

  function TrimRight(s: string): string {
    if s != "" && IsBlank(s[|s| - 1]) then TrimRight(s[..|s| - 1]) else s
  }

  function Trim(s: string): string { TrimLeft(TrimRight(s)) }

  // ---------------------------------------------------------------------
  // The list
  // ---------------------------------------------------------------------

  /** What stands in front of the first ':', or all of it. */
  function KeyPart(d: string): string {
    if d == "" || d[0] == ':' then "" else [d[0]] + KeyPart(d[1..])
  }

  /** What stands behind the first ':'. */
  function ValuePart(d: string): Option<string> {
    if d == "" then None else if d[0] == ':' then Some(d[1..]) else ValuePart(d[1..])
  }

  lemma {:induction false} Parts(k: string, v: string)
    requires ':' !in k
    ensures KeyPart(k + (":" + v)) == k && ValuePart(k + (":" + v)) == Some(v)
  {
    var d := k + (":" + v);
    if k == "" {
      assert d == ":" + v && d[1..] == v;
    } else {
      Parts(k[1..], v);
      assert d[1..] == k[1..] + (":" + v);
      assert [k[0]] + k[1..] == k;
    }
  }

  /** The list after d, whose key is k, went to its place. */
  function Inserted(l: seq<string>, k: string, d: string): seq<string> {
    if l == [] then [d]
    else
      var c := Compare(k, KeyPart(l[0]));
      if c == 0 then [d] + l[1..] else if c < 0 then [d] + l else [l[0]] + Inserted(l[1..], k, d)
  }

  function Header(key: string, value: string): string { key + (": " + Trim(value)) }

  /** The walk as far as position cur. */
  ghost predicate WalkedTo(list: seq<string>, cur: nat, k: string, d: string) {
    cur <= |list| && Inserted(list, k, d) == list[..cur] + Inserted(list[cur..], k, d)
  }

  /** One step of the walk: replace, insert, or go on. */
  lemma WalkOn(list: seq<string>, cur: nat, k: string, d: string)
    requires cur < |list| && WalkedTo(list, cur, k, d)
    ensures var result := Compare(k, KeyPart(list[cur]));
      if result == 0 then Inserted(list, k, d) == list[..cur] + [d] + list[cur + 1..]
      else if result < 0 then Inserted(list, k, d) == list[..cur] + [d] + list[cur..]
      else WalkedTo(list, cur + 1, k, d)
  {
    assert list[cur..][1..] == list[cur + 1..];
    Reassociate(list[..cur], [list[cur]], Inserted(list[cur + 1..], k, d));
    assert list[..cur] + [list[cur]] == list[..cur + 1];
  }

  /** curl_slist_sort_insert: walk to the first element that is not smaller; replace it if it has the
      same key, otherwise insert in front of it. */
  method SortInsert(list: seq<string>, key: string, value: string) returns (r: seq<string>)
    ensures r == Inserted(list, Trim(key), Header(key, value))
  {
    var strkey, item := Trim(key), Header(key, value);
    var cur := 0;
    while cur < |list|
      invariant cur <= |list| && WalkedTo(list, cur, strkey, item)
    {
      WalkOn(list, cur, strkey, item);
      var result := Compare(strkey, KeyPart(list[cur]));
      if result == 0 {
        return list[..cur] + [item] + list[cur + 1..];
      } else if result < 0 {
        return list[..cur] + [item] + list[cur..];
      }
      cur := cur + 1;
    }
    assert list[..cur] == list;
    return list + [item];
  }

  predicate Ascending(l: seq<string>) {
    forall i, j :: 0 <= i < j < |l| ==> Compare(KeyPart(l[i]), KeyPart(l[j])) < 0
  }

  /** The element with a key, if there is one. */
  function Lookup(l: seq<string>, k: string): Option<string> {
    if l == [] then None else if Compare(k, KeyPart(l[0])) == 0 then Some(l[0]) else Lookup(l[1..], k)
  }

  lemma {:induction false} InsertedMembers(l: seq<string>, k: string, d: string)
    ensures forall x :: x in Inserted(l, k, d) ==> x == d || x in l
  {
    if l != [] {
      InsertedMembers(l[1..], k, d);
    }
  }

  lemma {:induction false} InsertedAscending(l: seq<string>, k: string, d: string)
    requires Ascending(l) && KeyPart(d) == k
    ensures Ascending(Inserted(l, k, d))
  {
    if l != [] {
      var c := Compare(k, KeyPart(l[0]));
      if c <= 0 {
        forall i | 0 < i < |l| ensures Compare(k, KeyPart(l[i])) < 0 {
          CompareChains(k, KeyPart(l[0]), KeyPart(l[i]));
        }
      } else {
        InsertedAscending(l[1..], k, d);
        InsertedMembers(l[1..], k, d);
        var t := Inserted(l[1..], k, d);
        forall i | 0 <= i < |t| ensures Compare(KeyPart(l[0]), KeyPart(t[i])) < 0 {
          CompareTurned(k, KeyPart(l[0]));
          assert t[i] in t;
          if t[i] != d {
            var j :| 0 <= j < |l[1..]| && l[1..][j] == t[i];
            assert l[j + 1] == t[i];
          }
        }
      }
    }
  }

  /** The inserted element is found under its key, every other key finds what it found before. */
  lemma {:induction false} InsertedLookup(l: seq<string>, k: string, d: string, q: string)
    requires KeyPart(d) == k
    ensures Lookup(Inserted(l, k, d), q) == if Compare(q, k) == 0 then Some(d) else Lookup(l, q)
  {
    if l != [] {
      var c := Compare(k, KeyPart(l[0]));
      CompareTurned(k, q);
      CompareChains(k, q, KeyPart(l[0]));
      CompareTurned(q, KeyPart(l[0]));
      CompareTurned(k, KeyPart(l[0]));
      CompareChains(q, k, KeyPart(l[0]));
      CompareChains(k, KeyPart(l[0]), q);
      if c > 0 {
        InsertedLookup(l[1..], k, d, q);
        assert Inserted(l, k, d)[1..] == Inserted(l[1..], k, d);
      } else if c == 0 {
        assert ([d] + l[1..])[1..] == l[1..];
      } else {
        assert ([d] + l)[1..] == l;
      }
    }
  }

  // ---------------------------------------------------------------------
  // Runs of inserts
  // ---------------------------------------------------------------------

  datatype Field = Field(key: string, value: string)

  predicate GoodKey(k: string) { k != "" && ':' !in k && Trim(k) == k }

  function Built(fields: seq<Field>): seq<string> {
    if fields == [] then []
    else
      var f := fields[|fields| - 1];
      Inserted(Built(fields[..|fields| - 1]), Trim(f.key), Header(f.key, f.value))
  }

  /** The header last inserted under a key. */
  function Last(fields: seq<Field>, k: string): Option<string> {
    if fields == [] then None
    else
      var f := fields[|fields| - 1];
      if Compare(k, f.key) == 0 then Some(Header(f.key, f.value)) else Last(fields[..|fields| - 1], k)
  }

  lemma HeaderKey(k: string, v: string)
    requires ':' !in k
    ensures KeyPart(Header(k, v)) == k && ValuePart(Header(k, v)) == Some(" " + Trim(v))
  {
    assert Header(k, v) == k + (":" + (" " + Trim(v)));
    Parts(k, " " + Trim(v));
  }

  /** After any inserts the keys ascend strictly and each key holds what was inserted last under it. */
  lemma {:induction false} BuiltInOrder(fields: seq<Field>, q: string)
    requires forall f :: f in fields ==> GoodKey(f.key)
    ensures Ascending(Built(fields))
    ensures Lookup(Built(fields), q) == Last(fields, q)
  {
    if fields != [] {
      var before, f := fields[..|fields| - 1], fields[|fields| - 1];
      BuiltInOrder(before, q);
      HeaderKey(f.key, f.value);
      InsertedAscending(Built(before), f.key, Header(f.key, f.value));
      InsertedLookup(Built(before), f.key, Header(f.key, f.value), q);
    }
  }

  // ---------------------------------------------------------------------
  // The two texts for the signature
  // ---------------------------------------------------------------------

  /** Headers without a value are left out of both texts. */
  predicate Skipped(d: string) {
    ValuePart(d).Some? && Trim(ValuePart(d).value) == ""
  }

  function SortedKeys(l: seq<string>): string {
    if l == [] then ""
    else
      var d, before := l[|l| - 1], SortedKeys(l[..|l| - 1]);
      if Skipped(d) then before else before + (if before != "" then ";" else "") + Lower(KeyPart(d))
  }

  function CanonicalLine(d: string): string {
    match ValuePart(d)
    case Some(v) => Trim(Lower(KeyPart(d))) + ":" + Trim(v)
    case None => Trim(Lower(d))
  }

  function CanonicalLines(l: seq<string>): string {
    if l == [] then ""
    else
      var d, before := l[|l| - 1], CanonicalLines(l[..|l| - 1]);
      if Skipped(d) then before else before + CanonicalLine(d) + "\n"
  }

  /** get_sorted_header_keys */
  method GetSortedHeaderKeys(list: seq<string>) returns (r: string)
    ensures r == SortedKeys(list)
  {
    r := "";
    for i := 0 to |list|
      invariant r == SortedKeys(list[..i])
    {
      var strkey := list[i];
      assert list[..i + 1][..i] == list[..i];
      if ValuePart(strkey).Some? && Trim(ValuePart(strkey).value) == "" {
        continue;
      }
      if 0 < |r| {
        r := r + ";";
      }
      r := r + Lower(KeyPart(strkey));
    }
    assert list[..|list|] == list;
  }

  /** get_canonical_headers; no list at all gives one newline. */
  method GetCanonicalHeaders(list: seq<string>) returns (r: string)
    ensures r == if list == [] then "\n" else CanonicalLines(list)
  {
    if list == [] {
      return "\n";
    }
    r := "";
    for i := 0 to |list|
      invariant r == CanonicalLines(list[..i])
    {
      var head := list[i];
      assert list[..i + 1][..i] == list[..i];
      if ValuePart(head).Some? && Trim(ValuePart(head).value) == "" {
        continue;
      }
      r := r + CanonicalLine(head) + "\n";
    }
    assert list[..|list|] == list;
  }

  /** Cut a text at every delimiter, as repeated getline does. */
  function Cut(s: string, delim: char): seq<string>
    decreases |s|
  {
    match GetLine(s, delim)
    case None => []
    case Some(p) => [p.text] + Cut(p.rest, delim)
  }

  function KeysOfLines(lines: seq<string>): seq<string> {
    if lines == [] then [] else [KeyPart(lines[0])] + KeysOfLines(lines[1..])
  }

  /** A header whose key and value fit on one line and whose key holds no list separator. */
  predicate PrintableHeader(d: string) {
    && ValuePart(d).Some? && GoodKey(KeyPart(d)) && ';' !in KeyPart(d) && '\n' !in KeyPart(d)
    && '\n' !in Trim(ValuePart(d).value)
  }

  predicate Printable(l: seq<string>) {
    forall d :: d in l ==> PrintableHeader(d)
  }

  /** The folded keys of the headers that are not left out, in list order. */
  function Kept(l: seq<string>): seq<string> {
    if l == [] then []
    else if Skipped(l[|l| - 1]) then Kept(l[..|l| - 1])
    else Kept(l[..|l| - 1]) + [Lower(KeyPart(l[|l| - 1]))]
  }

  lemma LowerKeepsOut(s: string, c: char)
    requires c !in s && !('a' <= c <= 'z')
    ensures c !in Lower(s)
  {
  }

  lemma {:induction false} LowerTrimmed(s: string)
    requires Trim(s) == s
    ensures Trim(Lower(s)) == Lower(s)
  {
    TrimShorter(s);
    if s != "" {
      assert !IsBlank(s[|s| - 1]) by { if IsBlank(s[|s| - 1]) { TrimShorter(s[..|s| - 1]); } }
      assert TrimRight(s) == s;
      assert !IsBlank(s[0]) by { if IsBlank(s[0]) { TrimLeftShorter(s[1..]); } }
      assert IsBlank(Lower(s)[0]) <==> IsBlank(s[0]);
      assert IsBlank(Lower(s)[|s| - 1]) <==> IsBlank(s[|s| - 1]);
    }
  }

  lemma {:induction false} TrimLeftShorter(s: string)
    ensures |TrimLeft(s)| <= |s|
  {
    if s != "" && IsBlank(s[0]) {
      TrimLeftShorter(s[1..]);
    }
  }

  lemma {:induction false} TrimShorter(s: string)
    ensures |TrimRight(s)| <= |s| && |Trim(s)| <= |s|
  {
    if s != "" && IsBlank(s[|s| - 1]) {
      TrimShorter(s[..|s| - 1]);
    }
    TrimLeftShorter(TrimRight(s));
  }

  lemma {:induction false} CutAppend(s: string, t: string, delim: char)
    requires delim !in t && t != "" && (s == "" || s[|s| - 1] == delim)
    ensures Cut(s + t, delim) == Cut(s, delim) + [t]
    decreases |s|
  {
    if s == "" {
      GetLineSplits(t, "", delim);
      assert s + t == t && Cut("", delim) == [];
    } else {
      PieceOfMore(s, t, delim);
      CutAppend(GetLine(s, delim).value.rest, t, delim);
    }
  }

  lemma {:induction false} CutAppendDelim(s: string, t: string, delim: char)
    requires delim !in t && t != "" && s != "" && s[|s| - 1] != delim
    ensures Cut(s + [delim] + t, delim) == Cut(s, delim) + [t]
    decreases |s|
  {
    var p := GetLine(s, delim).value;
    PieceOfMore(s, [delim] + t, delim);
    assert s + [delim] + t == s + ([delim] + t);
    if p.rest == "" {
      GetLineSplits(s, t, delim);
      GetLineSplits(t, "", delim);
      assert Cut("", delim) == [];
    } else {
      CutAppendDelim(p.rest, t, delim);
      assert p.rest + [delim] + t == p.rest + ([delim] + t);
    }
  }

  /** The first piece of a text that goes on. */
  lemma {:induction false} PieceOfMore(s: string, more: string, delim: char)
    requires s != ""
    ensures var p := GetLine(s, delim).value;
      if delim in s then
        && GetLine(s + more, delim) == Some(Piece(p.text, p.rest + more))
        && (p.rest != "" ==> p.rest[|p.rest| - 1] == s[|s| - 1])
        && (p.rest == "" ==> s[|s| - 1] == delim)
      else p == Piece(s, "")
    decreases |s|
  {
    assert (s + more)[1..] == s[1..] + more;
    if s[0] != delim && |s| != 1 {
      PieceOfMore(s[1..], more, delim);
    }
  }

  lemma {:induction false} CutLine(s: string, line: string, delim: char)
    requires |line| > 0 && line[|line| - 1] == delim && delim !in line[..|line| - 1]
    requires s == "" || s[|s| - 1] == delim
    ensures Cut(s + line, delim) == Cut(s, delim) + [line[..|line| - 1]]
    decreases |s|
  {
    if s == "" {
      var t := line[..|line| - 1];
      GetLineSplits(t, "", delim);
      assert t + [delim] + "" == s + line && Cut("", delim) == [];
    } else {
      var p := GetLine(s, delim).value;
      PieceOfMore(s, line, delim);
      CutLine(p.rest, line, delim);
    }
  }

  lemma {:induction false} KeysOfOneMore(lines: seq<string>, line: string)
    ensures KeysOfLines(lines + [line]) == KeysOfLines(lines) + [KeyPart(line)]
  {
    if lines != [] {
      KeysOfOneMore(lines[1..], line);
      assert (lines + [line])[1..] == lines[1..] + [line];
    }
  }

  /** One line of the canonical headers is one line, and its key is the folded key. */
  lemma LineOfHeader(d: string)
    requires PrintableHeader(d)
    ensures '\n' !in CanonicalLine(d) && KeyPart(CanonicalLine(d)) == Lower(KeyPart(d))
  {
    var k := Lower(KeyPart(d));
    LowerTrimmed(KeyPart(d));
    LowerKeepsOut(KeyPart(d), ':');
    LowerKeepsOut(KeyPart(d), '\n');
    LineParts(k, Trim(ValuePart(d).value));
  }

  lemma LineParts(k: string, v: string)
    requires ':' !in k && '\n' !in k && '\n' !in v
    ensures '\n' !in k + ":" + v && KeyPart(k + ":" + v) == k
  {
    Parts(k, v);
    assert k + ":" + v == k + (":" + v);
  }

  lemma {:induction false} KeysCut(l: seq<string>)
    requires Printable(l)
    ensures Cut(SortedKeys(l), ';') == Kept(l)
    ensures SortedKeys(l) != "" ==> SortedKeys(l)[|SortedKeys(l)| - 1] != ';'
  {
    if l != [] {
      var before, d := l[..|l| - 1], l[|l| - 1];
      KeysCut(before);
      if !Skipped(d) {
        KeyAdded(SortedKeys(before), d);
      }
    }
  }

  lemma KeyAdded(keys: string, d: string)
    requires PrintableHeader(d)
    requires keys != "" ==> keys[|keys| - 1] != ';'
    ensures var r := keys + (if keys != "" then ";" else "") + Lower(KeyPart(d));
      Cut(r, ';') == Cut(keys, ';') + [Lower(KeyPart(d))] && r != "" && r[|r| - 1] != ';'
  {
    var k := Lower(KeyPart(d));
    LowerKeepsOut(KeyPart(d), ';');
    if keys == "" || keys[|keys| - 1] == ';' { CutAppend(keys, k, ';'); } else { CutAppendDelim(keys, k, ';'); }
    assert k[|k| - 1] != ';';
    assert keys + "" == keys;
  }

  lemma {:induction false} LinesCut(l: seq<string>)
    requires Printable(l)
    ensures KeysOfLines(Cut(CanonicalLines(l), '\n')) == Kept(l)
    ensures CanonicalLines(l) != "" ==> CanonicalLines(l)[|CanonicalLines(l)| - 1] == '\n'
  {
    if l != [] {
      var before, d := l[..|l| - 1], l[|l| - 1];
      LinesCut(before);
      if !Skipped(d) {
        assert d in l;
        LineAdded(CanonicalLines(before), d);
      }
    }
  }

  lemma LineAdded(lines: string, d: string)
    requires PrintableHeader(d)
    requires lines != "" ==> lines[|lines| - 1] == '\n'
    ensures var r := lines + CanonicalLine(d) + "\n";
      && KeysOfLines(Cut(r, '\n')) == KeysOfLines(Cut(lines, '\n')) + [Lower(KeyPart(d))]
      && r[|r| - 1] == '\n'
  {
    LineOfHeader(d);
    var line := CanonicalLine(d) + "\n";
    assert line[..|line| - 1] == CanonicalLine(d);
    CutLine(lines, line, '\n');
    KeysOfOneMore(Cut(lines, '\n'), CanonicalLine(d));
    assert lines + line == lines + CanonicalLine(d) + "\n";
  }

  lemma {:induction false} TrimKeepsOut(s: string, c: char)
    requires c !in s
    ensures c !in TrimLeft(s) && c !in TrimRight(s)
  {
    if s != "" {
      TrimKeepsOut(s[1..], c);
      TrimKeepsOut(s[..|s| - 1], c);
    }
  }

  predicate GoodField(f: Field) {
    GoodKey(f.key) && ';' !in f.key && '\n' !in f.key && '\n' !in f.value
  }

  /** Every list that inserts build from such fields can be signed. */
  lemma {:induction false} BuiltIsPrintable(fields: seq<Field>)
    requires forall f :: f in fields ==> GoodField(f)
    ensures Printable(Built(fields))
  {
    if fields != [] {
      var before, f := fields[..|fields| - 1], fields[|fields| - 1];
      assert f in fields;
      BuiltIsPrintable(before);
      var d := Header(f.key, f.value);
      InsertedMembers(Built(before), f.key, d);
      HeaderKey(f.key, f.value);
      TrimKeepsOut(f.value, '\n');
      TrimKeepsOut(TrimRight(f.value), '\n');
      TrimKeepsOut(" " + Trim(f.value), '\n');
      TrimKeepsOut(TrimRight(" " + Trim(f.value)), '\n');
    }
  }

  /** The order of strings by character code. */
  predicate Less(a: string, b: string) {
    b != "" && (a == "" || a[0] < b[0] || (a[0] == b[0] && Less(a[1..], b[1..])))
  }

  predicate InCodeOrder(ks: seq<string>) { forall i, j :: 0 <= i < j < |ks| ==> Less(ks[i], ks[j]) }

  lemma {:induction false} LowerLess(a: string, b: string)
    ensures Compare(a, b) < 0 <==> Less(Lower(a), Lower(b))
  {
    if a != "" && b != "" {
      LowerLess(a[1..], b[1..]);
      assert Lower(a)[1..] == Lower(a[1..]) && Lower(b)[1..] == Lower(b[1..]);
    }
  }

  lemma {:induction false} KeptMembers(l: seq<string>)
    ensures forall k :: k in Kept(l) ==> exists d :: d in l && k == Lower(KeyPart(d))
  {
    if l != [] {
      var before, d := l[..|l| - 1], l[|l| - 1];
      KeptMembers(before);
      assert d in l;
      forall k | k in Kept(l) ensures exists x :: x in l && k == Lower(KeyPart(x)) {
        if k in Kept(before) {
          var x :| x in before && k == Lower(KeyPart(x));
          assert x in l;
        }
      }
    }
  }

  /** An ascending list gives keys in strict code order. */
  lemma {:induction false} KeptInOrder(l: seq<string>)
    requires Ascending(l)
    ensures InCodeOrder(Kept(l))
  {
    if l != [] {
      var before, d := l[..|l| - 1], l[|l| - 1];
      KeptInOrder(before);
      KeptMembers(before);
      forall k | k in Kept(before) ensures Less(k, Lower(KeyPart(d))) {
        var x :| x in before && k == Lower(KeyPart(x));
        LowerLess(KeyPart(x), KeyPart(d));
      }
    }
  }

  /** Whatever was inserted, the two texts of the signature list the same keys, in strict code order. */
  lemma SignatureTextsAgree(fields: seq<Field>)
    requires forall f :: f in fields ==> GoodField(f)
    ensures Cut(SortedKeys(Built(fields)), ';') == Kept(Built(fields))
         == KeysOfLines(Cut(CanonicalLines(Built(fields)), '\n'))
    ensures Ascending(Built(fields)) && InCodeOrder(Kept(Built(fields)))
  {
    BuiltIsPrintable(fields);
    KeysCut(Built(fields));
    LinesCut(Built(fields));
    BuiltInOrder(fields, "");
    KeptInOrder(Built(fields));
  }
}
