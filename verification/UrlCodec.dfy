/** Percent-encoding of object paths and queries (sections 2.1 and 2.3 of RFC 3986). */
module UrlCodec {
  import opened Text
  import opened LocalFiles

  predicate Unreserved(c: byte) {
    || c == '.' as byte || c == '-' as byte || c == '_' as byte || c == '~' as byte
    || 'a' as byte <= c <= 'z' as byte || 'A' as byte <= c <= 'Z' as byte || '0' as byte <= c <= '9' as byte
  }

  /** Bytes that urlEncode leaves alone. */
  predicate PathPlain(c: byte) { c == '/' as byte || Unreserved(c) }

  /** Bytes that urlEncode2 leaves alone. */
  predicate QueryPlain(c: byte) {
    c == '=' as byte || c == '&' as byte || c == '%' as byte || Unreserved(c)
  }

  function HexDigit(n: byte): (c: byte)
    requires n < 16
    ensures Unreserved(c)
  {
    if n < 10 then '0' as byte + n else 'A' as byte + (n - 10)
  }

  function HexValue(c: byte): byte {
    if '0' as byte <= c <= '9' as byte then c - '0' as byte
    else if 'A' as byte <= c <= 'F' as byte then c - 'A' as byte + 10
    else if 'a' as byte <= c <= 'f' as byte then c - 'a' as byte + 10
    else 0
  }

  function Escape(c: byte): seq<byte> { ['%' as byte, HexDigit(c / 16), HexDigit(c % 16)] }

  function Encoded(s: seq<byte>, plain: byte -> bool): seq<byte> {
    if s == [] then []
    else
      var c := s[|s| - 1];
      Encoded(s[..|s| - 1], plain) + (if plain(c) then [c] else Escape(c))
  }

  function UrlEncoded(s: seq<byte>): seq<byte> { Encoded(s, PathPlain) }

  function UrlEncoded2(s: seq<byte>): seq<byte> { Encoded(s, QueryPlain) }

  /** urlDecode: an escape cut short ends the text; a digit that is none counts as 0. */
  function UrlDecoded(s: seq<byte>): seq<byte>
    decreases |s|
  {
    if s == [] then []
    else if s[0] != '%' as byte then [s[0]] + UrlDecoded(s[1..])
    else if |s| < 3 then []
    else [HexValue(s[1]) * 16 + HexValue(s[2])] + UrlDecoded(s[3..])
  }

  method UrlEncode(s: seq<byte>) returns (result: seq<byte>)
    ensures result == UrlEncoded(s)
  {
    result := [];
    var i := 0;
    while i < |s|
      invariant i <= |s| && result == UrlEncoded(s[..i])
    {
      var c := s[i];
      assert s[..i + 1][..i] == s[..i];
      if PathPlain(c) {
        result := result + [c];
      } else {
        result := result + ['%' as byte, HexDigit(c / 16), HexDigit(c % 16)];
      }
      i := i + 1;
    }
    assert s[..i] == s;
  }

  lemma DecodedAt(s: seq<byte>, i: nat, result: seq<byte>)
    requires i < |s|
    ensures result + UrlDecoded(s[i..]) ==
      if s[i] != '%' as byte then result + [s[i]] + UrlDecoded(s[i + 1..])
      else if |s| < i + 3 then result
      else result + [HexValue(s[i + 1]) * 16 + HexValue(s[i + 2])] + UrlDecoded(s[i + 3..])
  {
    if s[i] != '%' as byte {
      assert s[i..][1..] == s[i + 1..];
      Reassociate(result, [s[i]], UrlDecoded(s[i + 1..]));
    } else if i + 3 <= |s| {
      assert s[i..][3..] == s[i + 3..];
      Reassociate(result, [HexValue(s[i + 1]) * 16 + HexValue(s[i + 2])], UrlDecoded(s[i + 3..]));
    }
  }

  /** The decoding as far as position i. */
  ghost predicate DecodingAt(s: seq<byte>, i: nat, result: seq<byte>) {
    i <= |s| && UrlDecoded(s) == result + UrlDecoded(s[i..])
  }

  lemma DecodingNext(s: seq<byte>, i: nat, result: seq<byte>)
    requires i < |s| && DecodingAt(s, i, result)
    ensures if s[i] != '%' as byte then DecodingAt(s, i + 1, result + [s[i]])
            else if |s| < i + 3 then UrlDecoded(s) == result
            else DecodingAt(s, i + 3, result + [HexValue(s[i + 1]) * 16 + HexValue(s[i + 2])])
  {
    DecodedAt(s, i, result);
  }

  method UrlDecode(s: seq<byte>) returns (result: seq<byte>)
    ensures result == UrlDecoded(s)
  {
    result := [];
    var i := 0;
    while i < |s|
      invariant i <= |s| && DecodingAt(s, i, result)
    {
      DecodingNext(s, i, result);
      if s[i] != '%' as byte {
        result := result + [s[i]];
        i := i + 1;
      } else {
        if |s| <= i + 1 || |s| <= i + 2 {
          return;
        }
        var ch := HexValue(s[i + 1]) * 16 + HexValue(s[i + 2]);
        result := result + [ch];
        i := i + 3;
      }
    }
  }

  /** What one byte of a path becomes. */
  function Piece(c: byte): seq<byte> { if PathPlain(c) then [c] else Escape(c) }

  lemma DecodePiece(c: byte, rest: seq<byte>)
    ensures UrlDecoded(Piece(c) + rest) == [c] + UrlDecoded(rest)
  {
    var p := Piece(c);
    assert (p + rest)[|p|..] == rest;
    assert forall i :: 0 <= i < |p| ==> (p + rest)[i] == p[i];
    assert p[0] == '%' as byte ==> HexValue(p[1]) * 16 + HexValue(p[2]) == c;
  }

  /** A text that ends in whole pieces decodes piece by piece. */
  lemma {:induction false} DecodeStep(done: seq<byte>, rest: seq<byte>)
    ensures UrlDecoded(UrlEncoded(done) + rest) == done + UrlDecoded(rest)
    decreases |done|
  {
    if done == [] {
      assert UrlEncoded(done) + rest == rest;
    } else {
      var c, before := done[|done| - 1], done[..|done| - 1];
      Reassociate(UrlEncoded(before), Piece(c), rest);
      DecodeStep(before, Piece(c) + rest);
      DecodePiece(c, rest);
      assert done == before + [c];
      Reassociate(before, [c], UrlDecoded(rest));
    }
  }

  /** Decoding gives back every byte string. */
  lemma RoundTrip(s: seq<byte>)
    ensures UrlDecoded(UrlEncoded(s)) == s
  {
    DecodeStep(s, []);
    assert UrlEncoded(s) + [] == UrlEncoded(s);
  }

  lemma {:induction false} OnlyPlain(s: seq<byte>, plain: byte -> bool)
    requires forall c :: Unreserved(c) ==> plain(c)
    ensures forall i :: 0 <= i < |Encoded(s, plain)| ==>
      plain(Encoded(s, plain)[i]) || Encoded(s, plain)[i] == '%' as byte
  {
    if s != [] {
      OnlyPlain(s[..|s| - 1], plain);
    }
  }

  lemma {:induction false} PlainUnchanged(s: seq<byte>, plain: byte -> bool)
    requires forall i :: 0 <= i < |s| ==> plain(s[i])
    ensures Encoded(s, plain) == s
  {
    if s != [] {
      PlainUnchanged(s[..|s| - 1], plain);
    }
  }

  /** Encoding a query twice is encoding it once. */
  lemma Encode2Idempotent(s: seq<byte>)
    ensures UrlEncoded2(UrlEncoded2(s)) == UrlEncoded2(s)
  {
    OnlyPlain(s, QueryPlain);
    PlainUnchanged(UrlEncoded2(s), QueryPlain);
  }

  /** An encoded path holds neither '=' nor '&' nor '?'. */
  lemma PathHasNoQueryCharacters(s: seq<byte>)
    ensures '=' as byte !in UrlEncoded(s) && '&' as byte !in UrlEncoded(s) && '?' as byte !in UrlEncoded(s)
  {
    OnlyPlain(s, PathPlain);
  }
}
