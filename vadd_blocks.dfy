/** The 08.5 `vadd` kernel: adds two arrays of 512-bit words lane by lane, in blocks of
    `BUFFER_SIZE` words staged through local buffers. */
module VaddBlocks {
  import opened Words
  import opened LaneAdd

  const BUFFER_SIZE: nat := 128

  /** `size / VECTOR_SIZE` with C's truncating `int` division. */
  function SizeIn16(size: Int32): int
  {
    CDiv(size, VECTOR_SIZE)
  }

  /** Number of words the block loop touches: whole blocks of `BUFFER_SIZE` words, as
      many as it takes to cover `SizeIn16(size)` words. */
  function ProcessedWords(size: Int32): nat
  {
    var n := SizeIn16(size);
    if n <= 0 then 0 else (n + BUFFER_SIZE - 1) / BUFFER_SIZE * BUFFER_SIZE
  }

  /** The loop covers the requested words rounded up to a whole block: nothing when
      fewer than 16 elements are asked for, otherwise the least multiple of 128 words
      that is not below `size / 16`. */
  lemma ProcessedWordsIsRoundUp(size: Int32)
    ensures ProcessedWords(size) % BUFFER_SIZE == 0
    ensures ProcessedWords(size) == 0 <==> size < VECTOR_SIZE as int
    ensures size >= VECTOR_SIZE as int ==>
      SizeIn16(size) <= ProcessedWords(size) < SizeIn16(size) + BUFFER_SIZE as int
  {
  }

  /** A block that starts below the requested size ends within the processed words. */
  lemma BlockWithin(size: Int32, i: int)
    requires 0 <= i < SizeIn16(size) && i % BUFFER_SIZE == 0
    ensures i + BUFFER_SIZE <= ProcessedWords(size)
  {
  }

  /** The loop stops on the first block start that is not below the requested size. */
  lemma LoopExit(size: Int32, i: int)
    requires 0 <= i <= ProcessedWords(size) && i % BUFFER_SIZE == 0 && i >= SizeIn16(size)
    ensures i == ProcessedWords(size)
  {
  }

  /** One block of `BUFFER_SIZE` words at `i` through `v1_rd`, `v2_rd_add` and
      `out_write`: `out[i + t]` becomes the sum of the words the inputs held at `i + t`
      before the block started, and no other word of `out` changes. */
  method ProcessBlock(in1: array<Word>, in2: array<Word>, out: array<Word>, i: nat,
                      v1Local: array<Word>, resultLocal: array<Word>)
    requires i + BUFFER_SIZE <= in1.Length && i + BUFFER_SIZE <= in2.Length
    requires i + BUFFER_SIZE <= out.Length
    requires v1Local.Length == BUFFER_SIZE && resultLocal.Length == BUFFER_SIZE
    requires v1Local != resultLocal
    requires v1Local != in1 && v1Local != in2 && v1Local != out
    requires resultLocal != in1 && resultLocal != in2 && resultLocal != out
    modifies v1Local, resultLocal, out
    ensures forall n :: i <= n < i + BUFFER_SIZE ==> out[n] == SumWord(old(in1[n]), old(in2[n]))
    ensures forall n :: 0 <= n < out.Length && !(i <= n < i + BUFFER_SIZE) ==> out[n] == old(out[n])
  {
    // v1_rd
    for j := 0 to BUFFER_SIZE
      modifies v1Local
      invariant forall t :: 0 <= t < j ==> v1Local[t] == in1[i + t]
    {
      v1Local[j] := in1[i + j];
    }
    // v2_rd_add
    for j := 0 to BUFFER_SIZE
      modifies resultLocal
      invariant forall t :: 0 <= t < j ==> resultLocal[t] == SumWord(in1[i + t], in2[i + t])
    {
      var tmpV1 := v1Local[j];
      var tmpV2 := in2[i + j];
      var tmpOut := ParallelAdd(tmpV1, tmpV2);
      resultLocal[j] := tmpOut;
    }
    // out_write
    for j := 0 to BUFFER_SIZE
      modifies out
      invariant forall n :: i <= n < i + j ==> out[n] == SumWord(old(in1[n]), old(in2[n]))
      invariant forall n :: 0 <= n < out.Length && !(i <= n < i + j) ==> out[n] == old(out[n])
      invariant forall n :: i + j <= n < in1.Length ==> in1[n] == old(in1[n])
      invariant forall n :: i + j <= n < in2.Length ==> in2[n] == old(in2[n])
    {
      out[i + j] := resultLocal[j];
    }
  }

  /** `vadd(in1, in2, out, size)`. `out[n]` becomes the lane-wise sum of `in1[n]` and
      `in2[n]` for every processed word and keeps its value beyond them. `out` may be
      one of the inputs: a block is read completely before it is written. */
  method Vadd(in1: array<Word>, in2: array<Word>, out: array<Word>, size: Int32)
    requires in1.Length >= ProcessedWords(size)
    requires in2.Length >= ProcessedWords(size)
    requires out.Length >= ProcessedWords(size)
    modifies out
    ensures forall n :: 0 <= n < ProcessedWords(size) ==>
      out[n] == SumWord(old(in1[n]), old(in2[n]))
    ensures forall n :: ProcessedWords(size) <= n < out.Length ==> out[n] == old(out[n])
  {
    ghost var a, b := in1[..], in2[..];
    var v1Local := new Word[BUFFER_SIZE](_ => Zero());
    var resultLocal := new Word[BUFFER_SIZE](_ => Zero());
    var sizeIn16 := CDiv(size, VECTOR_SIZE);
    var i := 0;
    while i < sizeIn16
      invariant 0 <= i <= ProcessedWords(size) && i % BUFFER_SIZE == 0
      invariant forall n :: 0 <= n < i ==> out[n] == SumWord(a[n], b[n])
      invariant forall n :: i <= n < out.Length ==> out[n] == old(out[n])
      invariant forall n :: i <= n < in1.Length ==> in1[n] == a[n]
      invariant forall n :: i <= n < in2.Length ==> in2[n] == b[n]
      decreases sizeIn16 - i
    {
      BlockWithin(size, i);
      ProcessBlock(in1, in2, out, i, v1Local, resultLocal);
      i := i + BUFFER_SIZE;
    }
    LoopExit(size, i);
  }
}
