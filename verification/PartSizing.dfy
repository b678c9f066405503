/** How NoCacheLoadAndPost cuts a page into upload parts when the disk is full. */
module PartSizing {
  import opened Numbers
  import opened Text

  const MIN_MULTIPART_SIZE: nat := 5 * 1024 * 1024
  const FIVE_GB: nat := 5 * 1024 * 1024 * 1024

  /** The size of the next part when `rest` bytes of the page are left. */
  function NextPart(rest: nat, multipartSize: nat): (n: nat)
    requires 0 < rest && 0 < multipartSize
    ensures 0 < n <= rest
  {
    var one := if rest < multipartSize then rest else multipartSize;
    if rest - one < MIN_MULTIPART_SIZE then
      if FIVE_GB < rest then rest / 2 else rest
    else one
  }

  /** All parts of what is left of a page. */
  function Parts(rest: nat, multipartSize: nat): seq<nat>
    requires 0 < multipartSize
  {
    if rest == 0 then []
    else
      var n := NextPart(rest, multipartSize);
      [n] + Parts(rest - n, multipartSize)
  }

  /** The loop over one page, walked from its own start. */
  method CutPage(bytes: nat, multipartSize: nat) returns (parts: seq<nat>)
    requires 0 < multipartSize
    ensures parts == Parts(bytes, multipartSize)
  {
    parts := [];
    var totalread := 0;
    while totalread < bytes
      invariant totalread <= bytes
      invariant Parts(bytes, multipartSize) == parts + Parts(bytes - totalread, multipartSize)
    {
      var oneread := NextPart(bytes - totalread, multipartSize);
      Reassociate(parts, [oneread], Parts(bytes - totalread - oneread, multipartSize));
      parts := parts + [oneread];
      totalread := totalread + oneread;
    }
  }

  lemma NextPartSize(rest: nat, multipartSize: nat)
    requires 0 < rest && MIN_MULTIPART_SIZE <= multipartSize
    ensures var n := NextPart(rest, multipartSize);
      && (multipartSize <= FIVE_GB ==> n <= FIVE_GB)
      && (if rest < MIN_MULTIPART_SIZE then n == rest
          else MIN_MULTIPART_SIZE <= n && (n == rest || MIN_MULTIPART_SIZE <= rest - n))
  {
  }

  /** The parts of a page add up to it.  None is empty, none is under 5 MiB unless the whole page is, and
      none is over 5 GiB if the configured part size is not. */
  lemma {:induction false} PageInParts(bytes: nat, multipartSize: nat)
    requires MIN_MULTIPART_SIZE <= multipartSize
    ensures Sum(Parts(bytes, multipartSize)) == bytes
    ensures bytes < MIN_MULTIPART_SIZE ==> Parts(bytes, multipartSize) == if bytes == 0 then [] else [bytes]
    ensures MIN_MULTIPART_SIZE <= bytes ==> forall n :: n in Parts(bytes, multipartSize) ==> MIN_MULTIPART_SIZE <= n
    ensures multipartSize <= FIVE_GB ==> forall n :: n in Parts(bytes, multipartSize) ==> n <= FIVE_GB
  {
    if bytes != 0 {
      NextPartSize(bytes, multipartSize);
      var n := NextPart(bytes, multipartSize);
      PageInParts(bytes - n, multipartSize);
      assert ([n] + Parts(bytes - n, multipartSize))[1..] == Parts(bytes - n, multipartSize);
    }
  }

  /** All parts of every page stay within 5 GiB if and only if the configured part size does. */
  lemma WithinFiveGigabytes(multipartSize: nat)
    requires MIN_MULTIPART_SIZE <= multipartSize
    ensures multipartSize <= FIVE_GB
       <==> forall bytes: nat :: forall n :: n in Parts(bytes, multipartSize) ==> n <= FIVE_GB
  {
    if multipartSize <= FIVE_GB {
      forall bytes: nat ensures forall n :: n in Parts(bytes, multipartSize) ==> n <= FIVE_GB {
        PageInParts(bytes, multipartSize);
      }
    } else {
      var bytes := multipartSize + MIN_MULTIPART_SIZE;
      assert NextPart(bytes, multipartSize) == multipartSize;
      assert multipartSize in Parts(bytes, multipartSize);
    }
  }
}
