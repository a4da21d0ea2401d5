/** Twelve-bit sequence numbers and their unwrapped integers. */
module SeqNum {

  const SN_MOD := 4096

  predicate IsSeq(s: int) {
    0 <= s < SN_MOD
  }

  /** `SN_LESS`: bit 11 of `a - b`, taken on two's complement integers. */
  predicate SnLess(a: int, b: int) {
    (a - b) % SN_MOD >= 2048
  }

  /** How far `s` lies ahead of `base`, going round the circle of sequence numbers. */
  function Ahead(base: int, s: int): int {
    (s - base) % SN_MOD
  }

  /** The unwrapped number with residue `s` that lies in the half circle around `start`. */
  function Unwrap(start: int, s: int): int {
    var d := Ahead(start, s);
    if d < 2048 then start + d else start + d - SN_MOD
  }

  /** The comparison on residues is the comparison on unwrapped numbers less than half a circle apart. */
  lemma SnLessUnwrapped(x: int, y: int)
    requires -2048 <= x - y < 2048
    ensures SnLess(x % SN_MOD, y % SN_MOD) <==> x < y
    ensures x % SN_MOD == y % SN_MOD <==> x == y
  {
    assert (x % SN_MOD - y % SN_MOD) % SN_MOD == (x - y) % SN_MOD;
  }

  /** A sender's true number is recovered whenever it lies within half a circle of `start`. */
  lemma UnwrapRecovers(start: int, num: int)
    requires -2048 <= num - start < 2048
    ensures Unwrap(start, num % SN_MOD) == num
  {
    assert (num % SN_MOD - start) % SN_MOD == (num - start) % SN_MOD;
  }

  lemma UnwrapResidue(start: int, s: int)
    requires IsSeq(s)
    ensures Unwrap(start, s) % SN_MOD == s
    ensures -2048 <= Unwrap(start, s) - start < 2048
  {
    var d := Ahead(start, s);
    assert (start + d) % SN_MOD == s;
  }

  /** An integer less than a whole circle ahead is found again from its residue. */
  lemma AheadOfResidue(start: int, x: int)
    requires 0 <= x - start < SN_MOD
    ensures Ahead(start % SN_MOD, x % SN_MOD) == x - start
  {
    assert (x % SN_MOD - start % SN_MOD) % SN_MOD == (x - start) % SN_MOD;
  }

  lemma ResidueOfAhead(start: int, s: int)
    requires IsSeq(s)
    ensures (start + Ahead(start % SN_MOD, s)) % SN_MOD == s
  {
    assert (s - start % SN_MOD) % SN_MOD == (s - start) % SN_MOD;
  }

  ghost predicate Increasing(nums: seq<int>) {
    forall i, j :: 0 <= i < j < |nums| ==> nums[i] < nums[j]
  }

  /** Increasing integers inside an open interval are at most as many as the interval holds. */
  lemma {:induction false} IncreasingFits(nums: seq<int>, lo: int, hi: int)
    requires Increasing(nums)
    requires forall i :: 0 <= i < |nums| ==> lo < nums[i] < hi
    requires lo < hi
    ensures |nums| <= hi - lo - 1
  {
    if nums != [] {
      var n := |nums| - 1;
      IncreasingFits(nums[..n], lo, nums[n]);
    }
  }
}
