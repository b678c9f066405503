/** Text pieces shared by the readers and writers: C++ streams, decimal numbers, results. */
module Text {

  datatype Option<+T> = None | Some(value: T)

  datatype Error = InvalidArgument | OutOfRange | Malformed | DifferentSize | NotModelled

  datatype Result<+T> = Ok(value: T) | Err(error: Error)

  /** What getline leaves behind: the extracted piece and the rest of the stream. */
  datatype Piece = Piece(text: string, rest: string)

  /** Extract up to the delimiter, which is dropped; an exhausted stream gives nothing. */
  function GetLine(s: string, delim: char): (r: Option<Piece>)
    ensures r.Some? ==> |r.value.rest| < |s|
  {
    if s == "" then None
    else if s[0] == delim then Some(Piece("", s[1..]))
    else if |s| == 1 then Some(Piece(s, ""))
    else
      match GetLine(s[1..], delim)
      case None => Some(Piece(s, ""))
      case Some(p) => Some(Piece([s[0]] + p.text, p.rest))
  }

  lemma {:induction false} GetLineSplits(a: string, b: string, delim: char)
    requires delim !in a
    ensures GetLine(a + [delim] + b, delim) == Some(Piece(a, b))
    ensures a != "" ==> GetLine(a, delim) == Some(Piece(a, ""))
  {
    var s := a + [delim] + b;
    if a == "" {
      assert s == [delim] + b && s[1..] == b;
    } else {
      assert s[0] == a[0] && s[1..] == a[1..] + [delim] + b;
      GetLineSplits(a[1..], b, delim);
      assert [a[0]] + a[1..] == a;
    }
  }

  lemma Reassociate<T>(a: seq<T>, b: seq<T>, c: seq<T>)
    ensures a + (b + c) == a + b + c
  {
  }

  /** The part of a C string before its terminator. */
  function CString(s: string): string {
    if s == "" || s[0] == '\0' then "" else [s[0]] + CString(s[1..])
  }

  lemma {:induction false} CStringWhole(s: string)
    requires '\0' !in s
    ensures CString(s) == s
  {
    if s != "" {
      CStringWhole(s[1..]);
    }
  }

  // ---------------------------------------------------------------------
  // Decimal numbers
  // ---------------------------------------------------------------------

  predicate IsDigit(c: char) { '0' <= c <= '9' }

  predicate AllDigits(s: string) { forall i :: 0 <= i < |s| ==> IsDigit(s[i]) }

  function Digit(n: nat): (c: char)
    requires n < 10
    ensures IsDigit(c) && c as int - '0' as int == n
  {
    '0' + n as char
  }

  /** How an ostream prints a non-negative number. */
  function Decimal(n: nat): (s: string)
    ensures s != "" && AllDigits(s)
  {
    if n < 10 then [Digit(n)] else Decimal(n / 10) + [Digit(n % 10)]
  }

  function Value(s: string): nat
    requires AllDigits(s)
  {
    if s == "" then 0 else 10 * Value(s[..|s| - 1]) + (s[|s| - 1] as int - '0' as int)
  }

  lemma {:induction false} DecimalValue(n: nat)
    ensures Value(Decimal(n)) == n
    decreases n
  {
    if n < 10 {
      assert [Digit(n)][..0] == "";
    } else {
      DecimalValue(n / 10);
      var s := Decimal(n);
      assert s[..|s| - 1] == Decimal(n / 10);
    }
  }

  predicate IsSpace(c: char) { c in " \t\n\r" || c as int == 11 || c as int == 12 }

  function SkipSpaces(s: string): string {
    if s != "" && IsSpace(s[0]) then SkipSpaces(s[1..]) else s
  }

  const LLONG_MAX: int := 0x7FFF_FFFF_FFFF_FFFF

  /** s3fs_strtoofft in base 10: the whole text must be one number that fits 64 bits. */
  function StrToOff(s: string): (r: Result<int>)
    ensures r.Err? ==> r.error == InvalidArgument || r.error == OutOfRange
  {
    var t := SkipSpaces(s);
    var negative := t != "" && t[0] == '-';
    var digits := if t != "" && t[0] in "+-" then t[1..] else t;
    if digits == "" || !AllDigits(digits) then Err(InvalidArgument)
    else
      var n: int := if negative then -(Value(digits) as int) else Value(digits);
      if -LLONG_MAX - 1 <= n <= LLONG_MAX then Ok(n) else Err(OutOfRange)
  }

  lemma DecimalReadsBack(n: nat)
    requires n <= LLONG_MAX
    ensures StrToOff(Decimal(n)) == Ok(n)
  {
    DecimalValue(n);
    assert IsDigit(Decimal(n)[0]);
  }
}
