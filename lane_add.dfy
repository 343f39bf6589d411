/** The lane-wise add loop `v2_parallel_add` shared by the 08.5 and 08.4 `vadd` kernels:
    each pair of 32-bit lanes is added into a 33-bit `dout_type` and stored back into a
    32-bit lane of the result, which keeps the low 32 bits of the sum. */
module LaneAdd {
  import opened Words

  /** The word `v2_parallel_add` produces from `a` and `b`. */
  function SumWord(a: Word, b: Word): Word
  {
    seq(VECTOR_SIZE, k requires 0 <= k < VECTOR_SIZE => (a[k] as nat + b[k] as nat) % 0x1_0000_0000)
  }

  /** Lane k of the sum is the sum of the two lanes when that fits in 32 bits, and the
      sum less 2^32 when it does not: the carry out of a lane is dropped, never passed to
      the next lane. */
  lemma SumWordLanes(a: Word, b: Word, k: nat)
    requires k < VECTOR_SIZE
    ensures a[k] as nat + b[k] < 0x1_0000_0000 ==> SumWord(a, b)[k] == a[k] as nat + b[k]
    ensures a[k] as nat + b[k] >= 0x1_0000_0000 ==>
      SumWord(a, b)[k] == a[k] as nat + b[k] - 0x1_0000_0000
  {
  }

  /** The lane-wise sum does not depend on the order of its operands. */
  lemma SumWordCommutes(a: Word, b: Word)
    ensures SumWord(a, b) == SumWord(b, a)
  {
  }

  /** `v2_parallel_add`: starting from `tmpOut = 0`, stores lane i of the result on
      iteration i. */
  method ParallelAdd(tmpV1: Word, tmpV2: Word) returns (tmpOut: Word)
    ensures tmpOut == SumWord(tmpV1, tmpV2)
  {
    tmpOut := Zero();
    for i := 0 to VECTOR_SIZE
      invariant forall k :: 0 <= k < i ==> tmpOut[k] == SumWord(tmpV1, tmpV2)[k]
    {
      var val1 := tmpV1[i];
      var val2 := tmpV2[i];
      var res: nat := val1 as nat + val2;  // dout_type has 33 bits: no truncation yet
      tmpOut := tmpOut[i := res % 0x1_0000_0000];
    }
  }
}
