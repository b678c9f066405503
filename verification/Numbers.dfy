/** Small things about numbers that several modules share. */
module Numbers {

  function Min(a: nat, b: nat): nat { if a < b then a else b }
  function Max(a: nat, b: nat): nat { if a < b then b else a }

  function Sum(ns: seq<nat>): nat {
    if ns == [] then 0 else ns[0] + Sum(ns[1..])
  }

  lemma {:induction false} SumLast(ns: seq<nat>, n: nat)
    ensures Sum(ns + [n]) == Sum(ns) + n
  {
    if ns == [] {
      assert [n][1..] == [];
    } else {
      SumLast(ns[1..], n);
      assert (ns + [n])[1..] == ns[1..] + [n];
    }
  }

  /** The numbers below n. */
  function Places(n: nat): (s: set<nat>)
    ensures forall i: nat :: i in s <==> i < n
  {
    if n == 0 then {} else Places(n - 1) + {n - 1}
  }
}
