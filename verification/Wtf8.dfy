/** wtf8: arbitrary bytes as valid UTF-8, by moving each invalid byte into a private area. */
module Wtf8 {
  import opened Text
  import opened LocalFiles

  // ---------------------------------------------------------------------
  // UTF-8 sequences (section 3 of RFC 3629), as the encoder tests them
  // ---------------------------------------------------------------------

  /** The byte at i of a zero-terminated string. */
  function At(s: seq<byte>, i: nat): byte { if i < |s| then s[i] else 0 }

  predicate IsCont(b: byte) { 0x80 <= b <= 0xBF }       // (b & 0xc0) == 0x80
  predicate IsLead3(b: byte) { 0xE0 <= b <= 0xEF }      // (b & 0xf0) == 0xe0

  function Code3(a: byte, b: byte, c: byte): int
    requires IsLead3(a) && IsCont(b) && IsCont(c)
  {
    (a as int - 0xE0) * 4096 + (b as int - 0x80) * 64 + (c as int - 0x80)
  }

  function Code4(a: byte, b: byte, c: byte, d: byte): int
    requires 0xF0 <= a <= 0xF7 && IsCont(b) && IsCont(c) && IsCont(d)
  {
    (a as int - 0xF0) * 262144 + (b as int - 0x80) * 4096 + (c as int - 0x80) * 64 + (d as int - 0x80)
  }

  /** The tests by bit masks are these ranges. */
  lemma MasksAreRanges(b: bv8)
    ensures b & 0xc0 == 0x80 <==> 0x80 <= b <= 0xBF
    ensures b & 0xe0 == 0xc0 <==> 0xC0 <= b <= 0xDF
    ensures b & 0xf0 == 0xe0 <==> 0xE0 <= b <= 0xEF
    ensures b & 0xf8 == 0xf0 <==> 0xF0 <= b <= 0xF7
  {
  }

  /** How many bytes the sequence at the front of s has; 0 if it is not accepted. */
  function Len(s: seq<byte>): (n: nat)
    requires s != []
    ensures n <= |s| && n <= 4
    ensures forall i :: 0 < i < n ==> IsCont(s[i])
  {
    var c := s[0];
    if c <= 0x7F then 1
    else if !(0xC2 <= c <= 0xF5) then 0
    else if 0xC0 <= c <= 0xDF && IsCont(At(s, 1)) then 2
    else if IsLead3(c) && IsCont(At(s, 1)) && IsCont(At(s, 2)) && Good3(Code3(c, s[1], s[2])) then 3
    else if 0xF0 <= c <= 0xF7 && IsCont(At(s, 1)) && IsCont(At(s, 2)) && IsCont(At(s, 3))
         && 0x10000 <= Code4(c, s[1], s[2], s[3]) <= 0x10FFFF then 4
    else 0
  }

  /** Not overlong, and outside the part of the surrogates that the encoder excludes. */
  predicate Good3(code: int) { 0x800 <= code && !(0xD800 <= code <= 0xD8FF) }

  /** The length of the UTF-8 sequence in front of s by the grammar in section 4 of RFC 3629; 0 if
      there is none. */
  function GrammarLen(s: seq<byte>): nat
    requires s != []
  {
    var a, b := s[0], At(s, 1);
    if a <= 0x7F then 1
    else if 0xC2 <= a <= 0xDF && IsCont(b) then 2
    else if IsCont(At(s, 2)) &&
            (|| (a == 0xE0 && 0xA0 <= b <= 0xBF) || (0xE1 <= a <= 0xEC && IsCont(b))
             || (a == 0xED && 0x80 <= b <= 0x9F) || (0xEE <= a <= 0xEF && IsCont(b))) then 3
    else if IsCont(At(s, 2)) && IsCont(At(s, 3)) &&
            (|| (a == 0xF0 && 0x90 <= b <= 0xBF) || (0xF1 <= a <= 0xF3 && IsCont(b))
             || (a == 0xF4 && 0x80 <= b <= 0x8F)) then 4
    else 0
  }

  /** The encoder's tests are the grammar, except that it lets the surrogates D900 to DFFF pass. */
  lemma AcceptsGrammar(s: seq<byte>)
    requires s != []
    ensures Len(s) == if s[0] == 0xED && 0xA4 <= At(s, 1) <= 0xBF && IsCont(At(s, 2)) then 3 else GrammarLen(s)
  {
    if IsLead3(s[0]) && IsCont(At(s, 1)) && IsCont(At(s, 2)) {
      var code := Code3(s[0], s[1], s[2]);
      assert 0x800 <= code <==> s[0] != 0xE0 || 0xA0 <= s[1];
      assert 0xD800 <= code <= 0xD8FF <==> s[0] == 0xED && 0xA0 <= s[1] <= 0xA3;
    }
  }

  const ESCAPE_BASE: int := 0xE000

  /** Byte c as the three-byte sequence of the code point ESCAPE_BASE + c. */
  function Escape(c: byte): (e: seq<byte>)
    ensures |e| == 3 && IsLead3(e[0]) && IsCont(e[1]) && IsCont(e[2])
    ensures Code3(e[0], e[1], e[2]) == ESCAPE_BASE + c as int
  {
    [0xEE, 0x80 + c / 64, 0x80 + c % 64]
  }

  /** Does a private sequence, one that stands for an escaped byte, start s? */
  predicate PrivateAt(s: seq<byte>) {
    && IsLead3(At(s, 0)) && IsCont(At(s, 1)) && IsCont(At(s, 2))
    && ESCAPE_BASE <= Code3(At(s, 0), At(s, 1), At(s, 2)) <= ESCAPE_BASE + 0xFF
  }

  predicate HasPrivate(s: seq<byte>) { exists i :: 0 <= i < |s| && PrivateAt(s[i..]) }

  // ---------------------------------------------------------------------
  // Encoding and decoding
  // ---------------------------------------------------------------------

  function Encoded(s: seq<byte>): seq<byte>
    decreases |s|
  {
    if s == [] || s[0] == 0 then []
    else if Len(s) == 0 then Escape(s[0]) + Encoded(s[1..])
    else s[..Len(s)] + Encoded(s[Len(s)..])
  }

  predicate NeedsEncoding(s: seq<byte>)
    decreases |s|
  {
    s != [] && s[0] != 0 && (Len(s) == 0 || NeedsEncoding(s[Len(s)..]))
  }

  function Decoded(s: seq<byte>): seq<byte>
    decreases |s|
  {
    if s == [] || s[0] == 0 then []
    else if PrivateAt(s) then [Original(s)] + Decoded(s[3..])
    else [s[0]] + Decoded(s[1..])
  }

  /** Does decoding meet a private sequence? */
  predicate HoldsEscape(s: seq<byte>)
    decreases |s|
  {
    s != [] && s[0] != 0 && (PrivateAt(s) || HoldsEscape(s[1..]))
  }

  lemma EncodeStep(s: seq<byte>, p: nat, result: seq<byte>)
    requires p < |s| && s[p] != 0
    ensures var n := Len(s[p..]);
      && result + Encoded(s[p..]) ==
           (if n == 0 then result + Escape(s[p]) + Encoded(s[p + 1..]) else result + s[p..p + n] + Encoded(s[p + n..]))
      && (NeedsEncoding(s[p..]) <==> n == 0 || NeedsEncoding(s[p + n..]))
  {
    var n := Len(s[p..]);
    if n == 0 {
      assert s[p..][1..] == s[p + 1..];
      Reassociate(result, Escape(s[p]), Encoded(s[p + 1..]));
    } else {
      assert s[p..][..n] == s[p..p + n] && s[p..][n..] == s[p + n..];
      Reassociate(result, s[p..p + n], Encoded(s[p + n..]));
    }
  }

  /** The byte that a private sequence stands for. */
  function Original(s: seq<byte>): byte
    requires PrivateAt(s)
  {
    (Code3(s[0], s[1], s[2]) - ESCAPE_BASE) as byte
  }

  lemma DecodeStep(s: seq<byte>, p: nat, result: seq<byte>)
    requires p < |s| && s[p] != 0
    ensures result + Decoded(s[p..]) ==
      if PrivateAt(s[p..]) then result + [Original(s[p..])] + Decoded(s[p + 3..])
      else result + [s[p]] + Decoded(s[p + 1..])
    ensures HoldsEscape(s[p..]) <==> PrivateAt(s[p..]) || HoldsEscape(s[p + 1..])
  {
    assert s[p..][1..] == s[p + 1..];
    if PrivateAt(s[p..]) {
      assert s[p..][3..] == s[p + 3..];
      Reassociate(result, [Original(s[p..])], Decoded(s[p + 3..]));
    } else {
      Reassociate(result, [s[p]], Decoded(s[p + 1..]));
    }
  }

  /** The encoding as far as position p. */
  ghost predicate EncodingAt(s: seq<byte>, p: nat, result: seq<byte>, invalid: bool) {
    p <= |s| && Encoded(s) == result + Encoded(s[p..]) && (NeedsEncoding(s) <==> invalid || NeedsEncoding(s[p..]))
  }

  lemma EncodingNext(s: seq<byte>, p: nat, result: seq<byte>, invalid: bool)
    requires p < |s| && s[p] != 0 && EncodingAt(s, p, result, invalid)
    ensures var n := Len(s[p..]);
      if n == 0 then EncodingAt(s, p + 1, result + Escape(s[p]), true)
      else EncodingAt(s, p + n, result + s[p..p + n], invalid)
  {
    EncodeStep(s, p, result);
  }

  method Encode(s: seq<byte>) returns (result: seq<byte>, invalid: bool)
    ensures result == Encoded(s)
    ensures invalid <==> NeedsEncoding(s)
  {
    result, invalid := [], false;
    var p := 0;
    while p < |s| && s[p] != 0
      invariant p <= |s| && EncodingAt(s, p, result, invalid)
      decreases |s| - p
    {
      var n := Len(s[p..]);
      EncodingNext(s, p, result, invalid);
      if n != 0 {
        result := result + s[p..p + n];
        p := p + n;
      } else {
        invalid := true;
        result := result + Escape(s[p]);
        p := p + 1;
      }
    }
    assert Encoded(s[p..]) == [];
  }

  method Decode(s: seq<byte>) returns (result: seq<byte>, encoded: bool)
    ensures result == Decoded(s)
    ensures encoded <==> HoldsEscape(s)
  {
    result, encoded := [], false;
    var p := 0;
    while p < |s| && s[p] != 0
      invariant p <= |s|
      invariant Decoded(s) == result + Decoded(s[p..])
      invariant HoldsEscape(s) <==> encoded || HoldsEscape(s[p..])
      decreases |s| - p
    {
      DecodeStep(s, p, result);
      if PrivateAt(s[p..]) {
        encoded := true;
        result := result + [Original(s[p..])];
        p := p + 3;
      } else {
        result := result + [s[p]];
        p := p + 1;
      }
    }
  }

  // ---------------------------------------------------------------------
  // The codec's promises
  // ---------------------------------------------------------------------

  /** Whether and how long a sequence is depends on its own bytes only. */
  lemma LenLocal(s: seq<byte>, rest: seq<byte>)
    requires s != [] && 0 < Len(s)
    ensures Len(s[..Len(s)] + rest) == Len(s)
  {
    var t := s[..Len(s)] + rest;
    assert forall i :: 0 <= i < Len(s) ==> t[i] == s[i];
  }

  /** Escaped bytes are valid sequences themselves. */
  lemma EscapeAccepted(c: byte, rest: seq<byte>)
    requires 0x80 <= c
    ensures Len(Escape(c) + rest) == 3 && PrivateAt(Escape(c) + rest)
  {
    var e, t := Escape(c), Escape(c) + rest;
    assert t[0] == e[0] && t[1] == e[1] && t[2] == e[2];
  }

  lemma LenZero(s: seq<byte>)
    requires s != [] && Len(s) == 0
    ensures 0x80 <= s[0] && !PrivateAt(s)
  {
  }

  /** Encoding twice is encoding once. */
  lemma {:induction false} EncodeIdempotent(s: seq<byte>)
    ensures Encoded(Encoded(s)) == Encoded(s)
    decreases |s|
  {
    if s != [] && s[0] != 0 {
      var n := Len(s);
      if n == 0 {
        var rest := Encoded(s[1..]);
        LenZero(s);
        EncodeIdempotent(s[1..]);
        EscapeAccepted(s[0], rest);
        var t := Escape(s[0]) + rest;
        assert t[..3] == Escape(s[0]) && t[3..] == rest;
      } else {
        var rest := Encoded(s[n..]);
        EncodeIdempotent(s[n..]);
        LenLocal(s, rest);
        var t := s[..n] + rest;
        assert t[..n] == s[..n] && t[n..] == rest;
      }
    }
  }

  /** Bytes that start no three-byte sequence are copied. */
  lemma {:induction false} CopyPlain(x: seq<byte>, rest: seq<byte>)
    requires forall i :: 0 <= i < |x| ==> x[i] != 0 && !IsLead3(x[i])
    ensures Decoded(x + rest) == x + Decoded(rest)
  {
    if x == [] {
      assert x + rest == rest;
    } else {
      CopyPlain(x[1..], rest);
      assert (x + rest)[1..] == x[1..] + rest;
      assert [x[0]] + (x[1..] + Decoded(rest)) == x + Decoded(rest);
    }
  }

  /** A valid sequence that is not private is copied whole. */
  lemma CopySequence(s: seq<byte>, rest: seq<byte>)
    requires s != [] && s[0] != 0 && 0 < Len(s) && !PrivateAt(s)
    ensures Decoded(s[..Len(s)] + rest) == s[..Len(s)] + Decoded(rest)
  {
    var x := s[..Len(s)];
    if IsLead3(s[0]) {
      var t := x + rest;
      assert t[0] == s[0] && t[1] == s[1] && t[2] == s[2];
      assert t[1..] == x[1..] + rest;
      CopyPlain(x[1..], rest);
      assert [x[0]] + (x[1..] + Decoded(rest)) == x + Decoded(rest);
    } else {
      CopyPlain(x, rest);
    }
  }

  lemma DecodeEscape(c: byte, rest: seq<byte>)
    requires 0x80 <= c
    ensures Decoded(Escape(c) + rest) == [c] + Decoded(rest)
  {
    EscapeAccepted(c, rest);
    assert (Escape(c) + rest)[3..] == rest;
  }

  /** A private sequence further on lies behind the sequence at the front. */
  lemma PrivateBehind(s: seq<byte>, n: nat)
    requires s != [] && n == (if Len(s) == 0 then 1 else Len(s))
    ensures HasPrivate(s) <==> PrivateAt(s) || HasPrivate(s[n..])
  {
    assert s[0..] == s;
    if HasPrivate(s) && !PrivateAt(s) {
      var i :| 0 <= i < |s| && PrivateAt(s[i..]);
      assert IsLead3(s[i]);
      assert n <= i;
      assert s[n..][i - n..] == s[i..];
    }
    if HasPrivate(s[n..]) {
      var i :| 0 <= i < |s[n..]| && PrivateAt(s[n..][i..]);
      assert s[n..][i..] == s[n + i..];
    }
  }

  lemma {:induction false} DecodeOfEncode(s: seq<byte>)
    requires 0 !in s
    ensures !HasPrivate(s) ==> Decoded(Encoded(s)) == s
    ensures |Decoded(Encoded(s))| <= |s|
    ensures HasPrivate(s) ==> |Decoded(Encoded(s))| < |s|
    decreases |s|
  {
    if s != [] {
      var n := if Len(s) == 0 then 1 else Len(s);
      var rest := Encoded(s[n..]);
      DecodeOfEncode(s[n..]);
      PrivateBehind(s, n);
      assert s == s[..n] + s[n..];
      if Len(s) == 0 {
        LenZero(s);
        DecodeEscape(s[0], rest);
      } else if PrivateAt(s) {
        var t := s[..3] + rest;
        assert Len(s) == 3 && t[0] == s[0] && t[1] == s[1] && t[2] == s[2] && t[3..] == rest;
      } else {
        CopySequence(s, rest);
      }
    }
  }

  /** Decoding gives back a file name exactly if the name holds no code point from the private area
      that the encoding uses. */
  lemma RoundTrip(s: seq<byte>)
    requires 0 !in s
    ensures Decoded(Encoded(s)) == s <==> !HasPrivate(s)
  {
    DecodeOfEncode(s);
  }

  /** The encoder's flag says whether it changed anything. */
  lemma {:induction false} FlagMeansChanged(s: seq<byte>)
    requires 0 !in s
    ensures NeedsEncoding(s) <==> Encoded(s) != s
    ensures |s| <= |Encoded(s)|
    ensures NeedsEncoding(s) ==> |s| < |Encoded(s)|
    decreases |s|
  {
    if s != [] {
      var n := if Len(s) == 0 then 1 else Len(s);
      FlagMeansChanged(s[n..]);
      assert s == s[..n] + s[n..];
    }
  }

  // ---------------------------------------------------------------------
  // The check without a result string
  // ---------------------------------------------------------------------

  /** Called without a result, the encoder does not step over the bytes that continue a sequence. */
  predicate CheckOnly(s: seq<byte>)
    decreases |s|
  {
    s != [] && s[0] != 0 && (Len(s) == 0 || CheckOnly(s[1..]))
  }

  predicate IsAscii(s: seq<byte>) { forall i :: 0 <= i < |s| ==> s[i] <= 0x7F }

  /** Then it answers "invalid" for everything but ASCII, so its answer is the right one exactly for
      ASCII names and for names that do need encoding. */
  lemma {:induction false} CheckOnlyMeaning(s: seq<byte>)
    requires 0 !in s
    ensures CheckOnly(s) <==> !IsAscii(s)
    ensures (CheckOnly(s) <==> NeedsEncoding(s)) <==> IsAscii(s) || NeedsEncoding(s)
    decreases |s|
  {
    CheckOnlyAscii(s);
    AsciiUnchanged(s);
  }

  lemma {:induction false} CheckOnlyAscii(s: seq<byte>)
    requires 0 !in s
    ensures CheckOnly(s) <==> !IsAscii(s)
    decreases |s|
  {
    if s != [] {
      CheckOnlyAscii(s[1..]);
      assert s == [s[0]] + s[1..];
      assert 1 < Len(s) ==> !IsAscii(s[1..]) by {
        if 1 < Len(s) { assert IsCont(s[1]) && s[1..][0] == s[1]; }
      }
    }
  }

  lemma {:induction false} AsciiUnchanged(s: seq<byte>)
    requires 0 !in s
    ensures IsAscii(s) ==> !NeedsEncoding(s)
    decreases |s|
  {
    if s != [] {
      AsciiUnchanged(s[1..]);
    }
  }
}
