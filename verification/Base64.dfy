/** Base64 of byte strings (section 4 of RFC 4648), written into buffers sized beforehand. */
module Base64 {
  import opened LocalFiles
  import opened Text

  const PAD: byte := 64

  /** The alphabet "A..Za..z0..9+/=". */
  function Letter(n: byte): (c: byte)
    requires n <= PAD
    ensures c != 0
  {
    if n < 26 then 'A' as byte + n
    else if n < 52 then 'a' as byte + (n - 26)
    else if n < 62 then '0' as byte + (n - 52)
    else if n == 62 then '+' as byte
    else if n == 63 then '/' as byte
    else '=' as byte
  }

  /** char_decode64. */
  function Number(c: byte): byte {
    if 'A' as byte <= c <= 'Z' as byte then c - 'A' as byte
    else if 'a' as byte <= c <= 'z' as byte then c - 'a' as byte + 26
    else if '0' as byte <= c <= '9' as byte then c - '0' as byte + 52
    else if c == '+' as byte then 62
    else if c == '/' as byte then 63
    else if c == '=' as byte then 64
    else 255
  }

  lemma LetterReadsBack(n: byte)
    requires n <= PAD
    ensures Number(Letter(n)) == n
  {
  }

  // ---------------------------------------------------------------------
  // Groups of three bytes, groups of four letters
  // ---------------------------------------------------------------------

  function Get(s: seq<byte>, i: nat, otherwise: byte): byte { if i < |s| then s[i] else otherwise }

  /** The four numbers of the group that starts s. */
  function Numbers(s: seq<byte>): (p: (byte, byte, byte, byte))
    requires s != []
    ensures p.0 < 64 && p.1 < 64 && p.2 <= PAD && p.3 <= PAD
  {
    (s[0] / 4,
     (s[0] % 4) * 16 + Get(s, 1, 0) / 16,
     if 1 < |s| then (s[1] % 16) * 4 + Get(s, 2, 0) / 64 else PAD,
     if 2 < |s| then s[2] % 64 else PAD)
  }

  function Group(s: seq<byte>): (g: seq<byte>)
    requires s != []
    ensures |g| == 4
  {
    var p := Numbers(s);
    [Letter(p.0), Letter(p.1), Letter(p.2), Letter(p.3)]
  }

  function Drop(s: seq<byte>, n: nat): (r: seq<byte>)
    ensures |r| == if |s| <= n then 0 else |s| - n
  {
    if |s| <= n then [] else s[n..]
  }

  function Encoded(s: seq<byte>): seq<byte>
    decreases |s|
  {
    if s == [] then [] else Group(s) + Encoded(Drop(s, 3))
  }

  /** The four numbers of the group of letters that starts t. */
  function NumbersOf(t: seq<byte>): (byte, byte, byte, byte)
    requires t != []
  {
    (Number(t[0]), if 1 < |t| then Number(t[1]) else PAD, if 2 < |t| then Number(t[2]) else PAD,
     if 3 < |t| then Number(t[3]) else PAD)
  }

  function First(p0: byte, p1: byte): byte { (p0 % 64) * 4 + (p1 / 16) % 4 }
  function Second(p1: byte, p2: byte): byte { (p1 % 16) * 16 + (p2 / 4) % 16 }
  function Third(p2: byte, p3: byte): byte { (p2 % 4) * 64 + p3 % 64 }

  /** The bytes of one group of numbers; a padding number ends it early, and with it the text. */
  function Bytes(p: (byte, byte, byte, byte)): (b: seq<byte>)
    ensures 1 <= |b| <= 3
  {
    if p.2 == PAD then [First(p.0, p.1)]
    else if p.3 == PAD then [First(p.0, p.1), Second(p.1, p.2)]
    else [First(p.0, p.1), Second(p.1, p.2), Third(p.2, p.3)]
  }

  function Decoded(t: seq<byte>): seq<byte>
    decreases |t|
  {
    if t == [] then []
    else
      var b := Bytes(NumbersOf(t));
      b + (if |b| < 3 then [] else Decoded(Drop(t, 4)))
  }

  lemma FirstByte(a: byte, y: byte)
    requires y < 16
    ensures First(a / 4, (a % 4) * 16 + y) == a
  {
    assert ((a % 4) * 16 + y) / 16 == a % 4;
  }

  lemma SecondByte(x: byte, b: byte, y: byte)
    requires x < 4 && y < 4
    ensures Second(x * 16 + b / 16, (b % 16) * 4 + y) == b
  {
    assert (x * 16 + b / 16) % 16 == b / 16;
    assert ((b % 16) * 4 + y) / 4 == b % 16;
  }

  lemma ThirdByte(x: byte, c: byte)
    requires x < 16
    ensures Third(x * 4 + c / 64, c % 64) == c
  {
    assert (x * 4 + c / 64) % 4 == c / 64;
  }

  /** The bytes that a group stands for, by how many there are. */
  lemma BytesOfNumbers(s: seq<byte>)
    requires s != []
    ensures Bytes(Numbers(s)) == if |s| <= 3 then s else s[..3]
  {
    var a, b, c, p := s[0], Get(s, 1, 0), Get(s, 2, 0), Numbers(s);
    assert First(p.0, p.1) == a by { FirstByte(a, b / 16); }
    if 1 < |s| {
      assert Second(p.1, p.2) == b by { SecondByte(a % 4, b, c / 64); }
      if 2 < |s| {
        assert Third(p.2, p.3) == c by { ThirdByte(b % 16, c); }
      }
    }
    BytesByCount(p, s, a, b, c);
  }

  lemma BytesByCount(p: (byte, byte, byte, byte), s: seq<byte>, a: byte, b: byte, c: byte)
    requires s != [] && s[0] == a && First(p.0, p.1) == a
    requires if 1 < |s| then p.2 < PAD && s[1] == b && Second(p.1, p.2) == b else p.2 == PAD
    requires 1 < |s| ==> if 2 < |s| then p.3 < PAD && s[2] == c && Third(p.2, p.3) == c else p.3 == PAD
    ensures Bytes(p) == if |s| <= 3 then s else s[..3]
  {
  }

  /** One group comes back. */
  lemma GroupReadsBack(s: seq<byte>, rest: seq<byte>)
    requires s != []
    ensures NumbersOf(Group(s) + rest) == Numbers(s)
  {
    var p, t := Numbers(s), Group(s) + rest;
    LetterReadsBack(p.0);
    LetterReadsBack(p.1);
    LetterReadsBack(p.2);
    LetterReadsBack(p.3);
    assert t[0] == Letter(p.0) && t[1] == Letter(p.1) && t[2] == Letter(p.2) && t[3] == Letter(p.3);
  }

  /** Decoding gives back every byte string. */
  lemma {:induction false} RoundTrip(s: seq<byte>)
    ensures Decoded(Encoded(s)) == s
    decreases |s|
  {
    if s != [] {
      var rest := Encoded(Drop(s, 3));
      RoundTrip(Drop(s, 3));
      GroupReadsBack(s, rest);
      BytesOfNumbers(s);
      DecodeGroup(Group(s), rest, Numbers(s));
      assert s == Bytes(Numbers(s)) + Drop(s, 3);
    }
  }

  lemma DecodeGroup(g: seq<byte>, rest: seq<byte>, p: (byte, byte, byte, byte))
    requires |g| == 4 && NumbersOf(g + rest) == p
    ensures Decoded(g + rest) == Bytes(p) + (if |Bytes(p)| < 3 then [] else Decoded(rest))
  {
    assert Drop(g + rest, 4) == rest;
  }

  // ---------------------------------------------------------------------
  // The writers
  // ---------------------------------------------------------------------

  lemma DropDrop(s: seq<byte>, m: nat, n: nat)
    ensures Drop(Drop(s, m), n) == Drop(s, m + n) && Drop(s, 0) == s
  {
  }

  method Put(buffer: array<byte>, at: nat, b: byte)
    requires at < buffer.Length
    modifies buffer
    ensures buffer[..at + 1] == old(buffer[..at]) + [b]
  {
    buffer[at] := b;
  }

  method PutGroup(buffer: array<byte>, at: nat, s: seq<byte>)
    requires s != [] && at + 4 <= buffer.Length
    modifies buffer
    ensures buffer[..at + 4] == old(buffer[..at]) + Group(s)
  {
    var p := Numbers(s);
    Put(buffer, at, Letter(p.0));
    Put(buffer, at + 1, Letter(p.1));
    Put(buffer, at + 2, Letter(p.2));
    Put(buffer, at + 3, Letter(p.3));
  }

  method PutBytes(buffer: array<byte>, at: nat, t: seq<byte>) returns (n: nat)
    requires t != [] && at + |t| < buffer.Length && 0 < |t|
    requires |t| < 3 ==> |Bytes(NumbersOf(t))| <= |t|
    modifies buffer
    ensures n == |Bytes(NumbersOf(t))| && n <= |t|
    ensures buffer[..at + n] == old(buffer[..at]) + Bytes(NumbersOf(t))
  {
    var p := NumbersOf(t);
    Put(buffer, at, First(p.0, p.1));
    if p.2 == PAD {
      return 1;
    }
    Put(buffer, at + 1, Second(p.1, p.2));
    if p.3 == PAD {
      return 2;
    }
    Put(buffer, at + 2, Third(p.2, p.3));
    return 3;
  }

  /** The text with its terminator, in a buffer of ((length / 3) + 1) * 4 + 1 bytes. */
  method Encode(input: seq<byte>) returns (r: Option<array<byte>>, ghost used: nat)
    ensures r.None? <==> input == []
    ensures r.Some? ==> fresh(r.value) && used < r.value.Length == ((|input| / 3) + 1) * 4 + 1
    ensures r.Some? ==> r.value[..used] == Encoded(input) && r.value[used] == 0
  {
    if |input| == 0 {
      return None, 0;
    }
    var result := new byte[((|input| / 3) + 1) * 4 + 1];
    used := EncodeInto(result, input);
    return Some(result), used;
  }

  method EncodeInto(result: array<byte>, input: seq<byte>) returns (wpos: nat)
    requires result.Length == ((|input| / 3) + 1) * 4 + 1
    modifies result
    ensures wpos < result.Length && result[..wpos] == Encoded(input) && result[wpos] == 0
  {
    var rpos := 0;
    wpos := 0;
    ghost var groups, rest, done := 0, input, [];
    while rpos < |input|
      invariant rpos == 3 * groups && wpos == 4 * groups && groups <= |input| / 3 + 1
      invariant rest == Drop(input, rpos) && done == result[..wpos]
      invariant Encoded(input) == done + Encoded(rest)
    {
      DropDrop(input, rpos, 3);
      PutGroup(result, wpos, Drop(input, rpos));
      Reassociate(done, Group(rest), Encoded(Drop(rest, 3)));
      done, rest := done + Group(rest), Drop(rest, 3);
      rpos, wpos, groups := rpos + 3, wpos + 4, groups + 1;
    }
    assert rest == [] && done + [] == done;
    result[wpos] := 0;
  }

  /** The bytes and their number, in a buffer one larger than the text. */
  method Decode(input: seq<byte>) returns (r: Option<array<byte>>, length: nat)
    requires 0 !in input
    ensures r.None? <==> input == []
    ensures r.Some? ==> fresh(r.value) && length < r.value.Length == |input| + 1
    ensures r.Some? ==> r.value[..length] == Decoded(input) && r.value[length] == 0
  {
    if |input| == 0 {
      return None, 0;
    }
    var result := new byte[|input| + 1];
    length := DecodeInto(result, input);
    return Some(result), length;
  }

  lemma DecodedStep(done: seq<byte>, rest: seq<byte>, out: seq<byte>)
    requires rest != [] && out == done + Bytes(NumbersOf(rest))
    ensures |out| < |done| + 3 ==> done + Decoded(rest) == out
    ensures |out| == |done| + 3 ==> done + Decoded(rest) == out + Decoded(Drop(rest, 4))
  {
    var b := Bytes(NumbersOf(rest));
    Reassociate(done, b, Decoded(Drop(rest, 4)));
    assert b + [] == b;
  }

  method DecodeInto(result: array<byte>, input: seq<byte>) returns (wpos: nat)
    requires result.Length == |input| + 1
    modifies result
    ensures wpos < result.Length && result[..wpos] == Decoded(input) && result[wpos] == 0
  {
    var rpos := 0;
    wpos := 0;
    DropDrop(input, 0, 0);
    while rpos < |input|
      invariant wpos <= rpos && wpos <= |input|
      invariant Decoded(input) == result[..wpos] + Decoded(Drop(input, rpos))
    {
      ghost var done, rest := result[..wpos], Drop(input, rpos);
      DropDrop(input, rpos, 4);
      var n := PutBytes(result, wpos, Drop(input, rpos));
      wpos := wpos + n;
      DecodedStep(done, rest, result[..wpos]);
      rpos := if n < 3 then |input| else rpos + 4;
      if n < 3 {
        assert Drop(input, rpos) == [] && result[..wpos] + [] == result[..wpos];
      }
    }
    assert Drop(input, rpos) == [] && result[..wpos] + [] == result[..wpos];
    result[wpos] := 0;
  }
}
