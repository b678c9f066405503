/** The local (temporary or cache) file behind an open object, and the system calls on it. */
module LocalFiles {

  newtype byte = x: int | 0 <= x < 256

  function Zeros(n: nat): (z: seq<byte>)
    ensures |z| == n && forall i :: 0 <= i < n ==> z[i] == 0
  {
    seq(n, _ => 0)
  }

  /** Cut to n bytes, or extend with zeros. */
  function Truncated(data: seq<byte>, n: nat): (r: seq<byte>)
    ensures |r| == n
  {
    if n <= |data| then data[..n] else data + Zeros(n - |data|)
  }

  /** Put bytes at start; a gap before start reads as zeros. */
  function Overwrite(data: seq<byte>, start: nat, bytes: seq<byte>): (r: seq<byte>)
    ensures |r| == if bytes == [] || start + |bytes| <= |data| then |data| else start + |bytes|
    ensures forall i :: 0 <= i < |r| ==>
      r[i] == if start <= i < start + |bytes| then bytes[i - start] else if i < |data| then data[i] else 0
  {
    if bytes == [] then data
    else
      (if |data| < start then data + Zeros(start - |data|) else data[..start])
      + bytes
      + (if start + |bytes| <= |data| then data[start + |bytes|..] else [])
  }

  /** Bytes of a file from start on, at most size of them. */
  function Slice(data: seq<byte>, start: nat, size: nat): (r: seq<byte>)
    ensures |r| <= size
    ensures start + size <= |data| ==> r == data[start..start + size]
  {
    if |data| <= start then [] else if start + size <= |data| then data[start..start + size] else data[start..]
  }

  /** Writing two pieces one after the other is writing them joined. */
  lemma OverwriteTwice(data: seq<byte>, start: nat, a: seq<byte>, b: seq<byte>)
    ensures Overwrite(Overwrite(data, start, a), start + |a|, b) == Overwrite(data, start, a + b)
  {
    var twice, once := Overwrite(Overwrite(data, start, a), start + |a|, b), Overwrite(data, start, a + b);
    assert |twice| == |once|;
    forall i | 0 <= i < |once|
      ensures twice[i] == once[i]
    {
    }
  }

  /** The same for the next n bytes of one buffer of which t are already written. */
  lemma OverwriteMore(data: seq<byte>, start: nat, bytes: seq<byte>, t: nat, n: nat)
    requires t + n <= |bytes|
    ensures Overwrite(Overwrite(data, start, bytes[..t]), start + t, bytes[t..][..n])
         == Overwrite(data, start, bytes[..t + n])
  {
    OverwriteTwice(data, start, bytes[..t], bytes[t..][..n]);
    assert bytes[..t] + bytes[t..][..n] == bytes[..t + n];
  }

  /** Writes to ranges of a file that do not meet may come in either order. */
  lemma DisjointWritesCommute(data: seq<byte>, a: nat, x: seq<byte>, b: nat, y: seq<byte>)
    requires a + |x| <= b && b + |y| <= |data|
    ensures Overwrite(Overwrite(data, a, x), b, y) == Overwrite(Overwrite(data, b, y), a, x)
  {
    var s, t := Overwrite(Overwrite(data, a, x), b, y), Overwrite(Overwrite(data, b, y), a, x);
    forall i | 0 <= i < |data| ensures s[i] == t[i] {
    }
  }

  class LocalFile {
    var data: seq<byte>

    constructor ()
      ensures data == []
    {
      data := [];
    }

    method Ftruncate(size: nat)
      modifies this
      ensures data == Truncated(old(data), size)
    {
      data := Truncated(data, size);
    }

    /** answer is the system's choice: negative for an error, else an upper bound on the bytes written. */
    method Pwrite(bytes: seq<byte>, start: nat, answer: int) returns (n: int)
      modifies this
      ensures n == if answer < 0 then -1 else if answer < |bytes| then answer else |bytes|
      ensures data == if n < 0 then old(data) else Overwrite(old(data), start, bytes[..n])
    {
      if answer < 0 {
        return -1;
      }
      n := if answer < |bytes| then answer else |bytes|;
      data := Overwrite(data, start, bytes[..n]);
    }

    method Pread(start: nat, size: nat) returns (bytes: seq<byte>)
      ensures bytes == Slice(data, start, size)
    {
      bytes := Slice(data, start, size);
    }
  }
}
