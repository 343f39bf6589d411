/** The 08.3 `vadd` kernel: the scatter-gather table is read as 512-bit words, each
    holding `SGVECTOR_SIZE` 64-bit descriptors. Every descriptor names a jumbo frame of
    `BUFFER_SIZE` words in `in1`; each frame word has a small mask ORed into all of its
    lanes and the frame is written to `out` starting at the descriptor's position
    `ksg` within its table word. */
module VaddGather512 {
  import opened Words

  const BUFFER_SIZE: nat := 114
  const SGDESC_SIZE: nat := 64
  const SGBUFFER_SIZE: nat := 128
  const SGVECTOR_SIZE: nat := 8

  /** The output words one table word writes: frames start at 0 .. SGVECTOR_SIZE - 1. */
  const OUT_SPAN: nat := SGVECTOR_SIZE - 1 + BUFFER_SIZE

  lemma Geometry()
    ensures SGVECTOR_SIZE * SGDESC_SIZE == DATAWIDTH
    ensures OUT_SPAN == 121
  {
  }

  // ---------------------------------------------------------------------------
  // Lane operations

  /** `val1 | val2` on two `din_type` values. */
  function OrLane(x: U32, m: U32): U32
  {
    Or32(x, m)
  }

  /** `val3 ^ j`, stored into a `din_type`. */
  function XorMask(val3: U32, j: U32): U32
  {
    Xor32(val3, j)
  }

  /** `((isg + jsg) * SGDESC_SIZE + ksg) & (DATATYPE_SIZE - 1)` for table word
      `isg + jsg`. */
  function Val3(wordIndex: nat, ksg: nat): U32
  {
    (wordIndex * SGDESC_SIZE + ksg) % DATATYPE_SIZE
  }

  /** A descriptor's position is already the low five bits, since 64 is a multiple of 32:
      the mask seed is the descriptor's position in its table word, whatever the word. */
  lemma Val3IsPosition(wordIndex: nat, ksg: nat)
    requires ksg < SGVECTOR_SIZE
    ensures Val3(wordIndex, ksg) == ksg
  {
    assert SGDESC_SIZE == 64 && DATATYPE_SIZE == 32;
    assert wordIndex * SGDESC_SIZE == 32 * (2 * wordIndex);
    ModThirtyTwo(2 * wordIndex, ksg);
  }

  lemma ModThirtyTwo(m: nat, r: nat)
    requires r < 32
    ensures (32 * m + r) % 32 == r
  {
  }

  /** `val3` as the kernel computes it for descriptor `ksg` of table word `wordIndex`. */
  method MaskSeed(wordIndex: nat, ksg: nat) returns (val3: U32)
    requires ksg < SGVECTOR_SIZE
    ensures val3 == ksg
  {
    val3 := Val3(wordIndex, ksg);
    Val3IsPosition(wordIndex, ksg);
  }

  /** The word `v2_parallel_add` builds in this kernel: every lane of `a` ORed with `m`. */
  function OrWord(a: Word, m: U32): Word
  {
    seq(VECTOR_SIZE, k requires 0 <= k < VECTOR_SIZE => OrLane(a[k], m))
  }

  /** The mask ORed into a frame word is below 128: the descriptor position takes three
      bits and the word's index in the frame seven. */
  lemma MaskBelow128(ksg: U32, j: U32)
    requires ksg < SGVECTOR_SIZE && j < BUFFER_SIZE
    ensures XorMask(ksg, j) < 128
  {
    assert Pow2(7) == 128;
    BitOpsBound(ksg, j, 7);
  }

  /** Within one frame the masks differ from word to word: the descriptor position and
      the mask give back the word's index, `ksg ^ (ksg ^ j) == j`. */
  lemma MaskDeterminesIndex(val3: U32, j1: U32, j2: U32)
    requires XorMask(val3, j1) == XorMask(val3, j2)
    ensures j1 == j2
  {
    BitXorCancel(val3, j1);
    BitXorCancel(val3, j2);
  }

  /** Running a word through the OR stage a second time with the same mask changes
      nothing. */
  lemma OrWordIdempotent(a: Word, m: U32)
    ensures OrWord(OrWord(a, m), m) == OrWord(a, m)
  {
    forall k | 0 <= k < VECTOR_SIZE
      ensures OrWord(OrWord(a, m), m)[k] == OrWord(a, m)[k]
    {
      BitOrIdempotent(a[k], m);
    }
  }

  /** A zero mask leaves the word as it is. */
  lemma OrWordZero(a: Word)
    ensures OrWord(a, 0) == a
  {
    forall k | 0 <= k < VECTOR_SIZE
      ensures OrWord(a, 0)[k] == a[k]
    {
      BitOrZero(a[k]);
    }
  }

  /** `v2_parallel_add` of 08.3: starting from `tmpOut = 0`, stores lane i of the result
      on iteration i. */
  method OrParallel(tmpV1: Word, val2: U32) returns (tmpOut: Word)
    ensures tmpOut == OrWord(tmpV1, val2)
  {
    tmpOut := Zero();
    for i := 0 to VECTOR_SIZE
      invariant forall k :: 0 <= k < i ==> tmpOut[k] == OrWord(tmpV1, val2)[k]
    {
      var val1 := tmpV1[i];
      var res := OrLane(val1, val2);
      tmpOut := tmpOut[i := res];
    }
  }

  /** Every lane of the input word stays set in the output word: ORing the input into
      the result again changes nothing. */
  lemma OrWordKeepsInput(a: Word, m: U32)
    ensures forall k :: 0 <= k < VECTOR_SIZE ==> BitOr(a[k], OrWord(a, m)[k]) == OrWord(a, m)[k]
  {
    forall k | 0 <= k < VECTOR_SIZE
      ensures BitOr(a[k], OrWord(a, m)[k]) == OrWord(a, m)[k]
    {
      BitOrKeeps(a[k], m);
    }
  }

  // ---------------------------------------------------------------------------
  // What the kernel writes

  /** Word j of the frame named by descriptor `ksg` of table word `sgWord`, as written to
      `out[ksg + j]`. The mask seed is the descriptor position (`Val3IsPosition`). */
  ghost function FrameOutput(sgWord: Word, in1: seq<Word>, ksg: nat, j: nat): Word
    requires ksg < SGVECTOR_SIZE && j < BUFFER_SIZE
    requires Field64(sgWord, ksg) + BUFFER_SIZE <= |in1|
  {
    OrWord(in1[Field64(sgWord, ksg) + j], XorMask(ksg, j))
  }

  /** Every descriptor of a table word names a frame inside `in1`. */
  ghost predicate FramesInside(sgWord: Word, in1Length: nat)
  {
    forall k :: 0 <= k < SGVECTOR_SIZE ==> Field64(sgWord, k) + BUFFER_SIZE <= in1Length
  }

  /** Every descriptor of the first `c` table words names a frame inside `inLength` words. */
  ghost predicate TableInside(table: seq<Word>, c: nat, inLength: nat)
    requires c <= |table|
  {
    forall n :: 0 <= n < c ==> FramesInside(table[n], inLength)
  }

  /** The output after one table word: each of the first seven descriptors leaves only the
      first word of its frame (the next frame overwrites the rest), and the frame of the
      last descriptor fills `out[SGVECTOR_SIZE - 1 .. OUT_SPAN)`. */
  ghost predicate TableWordWritten(out: seq<Word>, sgWord: Word, in1: seq<Word>)
    requires FramesInside(sgWord, |in1|)
  {
    OUT_SPAN <= |out| &&
    (forall p :: 0 <= p < SGVECTOR_SIZE - 1 ==> out[p] == FrameOutput(sgWord, in1, p, 0)) &&
    (forall p :: SGVECTOR_SIZE - 1 <= p < OUT_SPAN ==>
      out[p] == FrameOutput(sgWord, in1, SGVECTOR_SIZE - 1, p - (SGVECTOR_SIZE - 1)))
  }

  // ---------------------------------------------------------------------------
  // What the kernel writes, frame by frame, with `in1` and `out` possibly one array

  /** Word n of the output after the frame at word `jumbo` of `src` has been written,
      masked, to `out[ksg .. ksg + BUFFER_SIZE)` over `o`. */
  ghost function FrameStepAt(o: seq<Word>, src: seq<Word>, jumbo: nat, val3: U32, ksg: nat, n: nat): Word
    requires jumbo + BUFFER_SIZE <= |src| && n < |o|
  {
    if ksg <= n < ksg + BUFFER_SIZE then OrWord(src[jumbo + (n - ksg)], XorMask(val3, n - ksg)) else o[n]
  }

  /** Table words `0 .. t - 1` and then descriptors `0 .. k - 1` of table word t can have
      been run over an output of `outLength` words. */
  ghost predicate Ran(table: seq<Word>, t: nat, k: nat, outLength: nat)
  {
    k <= SGVECTOR_SIZE && t <= |table| && (k > 0 ==> t < |table|) &&
    ((t > 0 || k > 0) ==> OUT_SPAN <= outLength)
  }

  /** Word n of the output after table words `0 .. t - 1` and descriptors `0 .. k - 1` of
      table word t, frame after frame, over `o`. Each frame is read in full before it is
      written; with `InPlace` it reads the output as the frames before it left it. The
      kernel is only run on tables whose frames lie inside the source (`Vadd` requires
      it); a frame that does not leaves the output as it is, so that `FramesAt` needs no
      precondition beyond its indices. */
  ghost function FramesAt(o: seq<Word>, src: Source, table: seq<Word>, t: nat, k: nat, n: nat): Word
    requires Ran(table, t, k, |o|) && n < |o|
    decreases t, k
  {
    if k == 0 then
      if t == 0 then o[n] else FramesAt(o, src, table, t - 1, SGVECTOR_SIZE, n)
    else
      var ksg := k - 1;
      var jumbo := Field64(table[t], ksg);
      if jumbo + BUFFER_SIZE <= SourceLength(src, |o|) && ksg <= n < ksg + BUFFER_SIZE then
        var m := jumbo + (n - ksg);
        var v := if src.InPlace? then FramesAt(o, src, table, t, ksg, m) else src.words[m];
        OrWord(v, XorMask(ksg, n - ksg))
      else
        FramesAt(o, src, table, t, ksg, n)
  }

  /** `r` is the output after those frames. */
  ghost predicate FramesHold(r: seq<Word>, o: seq<Word>, src: Source, table: seq<Word>, t: nat, k: nat)
    requires Ran(table, t, k, |o|)
  {
    |r| == |o| && forall n :: 0 <= n < |o| ==> r[n] == FramesAt(o, src, table, t, k, n)
  }

  /** The frames of the first `c2` table words lie inside whenever those of the first
      `c1 >= c2` do. */
  lemma TableInsideShrink(table: seq<Word>, c1: nat, c2: nat, inLength: nat)
    requires c2 <= c1 <= |table| && TableInside(table, c1, inLength)
    ensures TableInside(table, c2, inLength)
    ensures c2 < c1 ==> FramesInside(table[c2], inLength)
  {
  }

  /** Running table word t to its end is running table words `0 .. t`. */
  lemma FramesWordDone(o: seq<Word>, src: Source, table: seq<Word>, t: nat, r: seq<Word>)
    requires Ran(table, t + 1, 0, |o|)
    requires FramesHold(r, o, src, table, t, SGVECTOR_SIZE)
    ensures FramesHold(r, o, src, table, t + 1, 0)
  {
  }

  /** One more frame, descriptor k of table word t, inside the source: it reads `w`, the
      source as the frames so far have left it, and writes `r`. */
  lemma FramesNext(o: seq<Word>, src: Source, table: seq<Word>, t: nat, k: nat,
                   before: seq<Word>, w: seq<Word>, r: seq<Word>)
    requires k < SGVECTOR_SIZE && Ran(table, t, k + 1, |o|)
    requires FramesHold(before, o, src, table, t, k)
    requires w == SourceWords(src, before) && |w| == SourceLength(src, |o|)
    requires Field64(table[t], k) + BUFFER_SIZE <= |w|
    requires |r| == |o|
    requires forall n :: 0 <= n < |r| ==> r[n] == FrameStepAt(before, w, Field64(table[t], k), k, k, n)
    ensures FramesHold(r, o, src, table, t, k + 1)
  {
    var jumbo := Field64(table[t], k);
    forall n | 0 <= n < |o|
      ensures r[n] == FramesAt(o, src, table, t, k + 1, n)
    {
      if k <= n < k + BUFFER_SIZE {
        var m := jumbo + (n - k);
        assert w[m] == if src.InPlace? then FramesAt(o, src, table, t, k, m) else src.words[m];
      }
    }
  }

  /** No frame writes `out` from `OUT_SPAN` on, whatever the frames read. */
  lemma {:induction false} FramesOutside(o: seq<Word>, src: Source, table: seq<Word>, t: nat, k: nat)
    requires Ran(table, t, k, |o|)
    ensures forall n :: OUT_SPAN <= n < |o| ==> FramesAt(o, src, table, t, k, n) == o[n]
    decreases t, k
  {
    if k > 0 {
      FramesOutside(o, src, table, t, k - 1);
    } else if t > 0 {
      FramesOutside(o, src, table, t - 1, SGVECTOR_SIZE);
    }
  }

  /** With `in1` distinct from `out`, after the first k frames of table word t each of
      them but the last has left only its first word, and the last its whole frame. */
  lemma {:induction false} FramesPrefix(o: seq<Word>, d: seq<Word>, table: seq<Word>, t: nat, k: nat)
    requires t < |table| && Ran(table, t, k, |o|) && FramesInside(table[t], |d|)
    ensures forall p :: 0 <= p < k ==> FramesAt(o, Separate(d), table, t, k, p) == FrameOutput(table[t], d, p, 0)
    ensures k > 0 ==> forall p :: k <= p < k - 1 + BUFFER_SIZE ==>
      FramesAt(o, Separate(d), table, t, k, p) == FrameOutput(table[t], d, k - 1, p - (k - 1))
    decreases k
  {
    if k > 0 {
      FramesPrefix(o, d, table, t, k - 1);
    }
  }

  /** The eight frames, as `FramesPrefix` leaves them, are `TableWordWritten`. */
  lemma AllFramesWritten(r: seq<Word>, sgWord: Word, d: seq<Word>)
    requires OUT_SPAN <= |r| && FramesInside(sgWord, |d|)
    requires forall p :: 0 <= p < SGVECTOR_SIZE ==> r[p] == FrameOutput(sgWord, d, p, 0)
    requires forall p :: SGVECTOR_SIZE <= p < OUT_SPAN ==>
      r[p] == FrameOutput(sgWord, d, SGVECTOR_SIZE - 1, p - (SGVECTOR_SIZE - 1))
    ensures TableWordWritten(r, sgWord, d)
  {
  }

  /** With `in1` distinct from `out`, the output window ends as the last table word
      leaves it, whatever the earlier table words held. */
  lemma FramesSeparate(o: seq<Word>, d: seq<Word>, table: seq<Word>, c: nat, r: seq<Word>)
    requires 0 < c && Ran(table, c, 0, |o|) && FramesInside(table[c - 1], |d|)
    requires FramesHold(r, o, Separate(d), table, c, 0)
    ensures TableWordWritten(r, table[c - 1], d)
  {
    FramesWordDone(o, Separate(d), table, c - 1, r);
    FramesPrefix(o, d, table, c - 1, SGVECTOR_SIZE);
    AllFramesWritten(r, table[c - 1], d);
  }

  /** No descriptor of the first `c` table words starts a frame below `OUT_SPAN`. */
  ghost predicate ClearOfWindow(table: seq<Word>, c: nat)
    requires c <= |table|
  {
    forall n, j :: 0 <= n < c && 0 <= j < SGVECTOR_SIZE ==> OUT_SPAN <= Field64(table[n], j)
  }

  /** `in1 == out` changes nothing when every frame starts at or after `OUT_SPAN`: each
      frame then reads words that no frame writes. */
  lemma {:induction false} FramesInPlaceAgree(o: seq<Word>, table: seq<Word>, t: nat, k: nat)
    requires Ran(table, t, k, |o|)
    requires ClearOfWindow(table, if k > 0 then t + 1 else t)
    ensures forall n :: 0 <= n < |o| ==>
      FramesAt(o, InPlace, table, t, k, n) == FramesAt(o, Separate(o), table, t, k, n)
    decreases t, k
  {
    if k > 0 {
      FramesInPlaceAgree(o, table, t, k - 1);
      FramesOutside(o, InPlace, table, t, k - 1);
    } else if t > 0 {
      FramesInPlaceAgree(o, table, t - 1, SGVECTOR_SIZE);
    }
  }

  // ---------------------------------------------------------------------------
  // Loop bounds

  /** `sgsize_in16 = size / SGVECTOR_SIZE`, with C's truncating division. */
  function TableWords(size: Int32): int
  {
    CDiv(size, SGVECTOR_SIZE)
  }

  /** Table words the `sg_group` loop reads from a start `isg` on, `SGBUFFER_SIZE` at a
      time while `isg` is below `sgsize_in16`, as a function of `n = sgsize_in16 - isg`. */
  function GroupWords(n: int): (r: nat)
    decreases n
  {
    if n <= 0 then 0 else SGBUFFER_SIZE + GroupWords(n - SGBUFFER_SIZE)
  }

  /** The groups cover `n` words with less than one group to spare. */
  lemma {:induction false} GroupWordsRoundUp(n: int)
    ensures GroupWords(n) % SGBUFFER_SIZE == 0
    ensures n <= 0 ==> GroupWords(n) == 0
    ensures n > 0 ==> n <= GroupWords(n) < n + SGBUFFER_SIZE
    decreases n
  {
    if n > 0 {
      GroupWordsRoundUp(n - SGBUFFER_SIZE);
    }
  }

  /** Table words the `sg_group` loop reads over the whole run. */
  function WordsRead(size: Int32): (r: nat)
    ensures r % SGBUFFER_SIZE == 0
    ensures r > 0 <==> TableWords(size) > 0
  {
    GroupWordsRoundUp(TableWords(size));
    GroupWords(TableWords(size))
  }

  /** The table is read in whole groups: nothing for fewer than eight frames, otherwise
      the least multiple of 128 words that covers `size / 8` words. */
  lemma WordsReadIsRoundUp(size: Int32)
    ensures WordsRead(size) % SGBUFFER_SIZE == 0
    ensures WordsRead(size) == 0 <==> size < SGVECTOR_SIZE as int
    ensures size >= SGVECTOR_SIZE as int ==>
      TableWords(size) <= WordsRead(size) < TableWords(size) + SGBUFFER_SIZE as int
  {
    GroupWordsRoundUp(TableWords(size));
  }

  // ---------------------------------------------------------------------------
  // The kernel

  /** One frame through `v1_rd`, `v2_rd_add` and `out_write`: the frame is read in full
      into `v1_local` before anything is written, so each word of `out` is `FrameStepAt`
      of the old contents even when `in1` and `out` are the same array. */
  method ProcessFrame(in1: array<Word>, out: array<Word>, jumbo: U64, val3: U32, ksg: nat,
                      v1Local: array<Word>, resultLocal: array<Word>)
    requires jumbo + BUFFER_SIZE <= in1.Length && ksg + BUFFER_SIZE <= out.Length
    requires v1Local.Length == BUFFER_SIZE && resultLocal.Length == BUFFER_SIZE
    requires v1Local != resultLocal
    requires v1Local != in1 && v1Local != out && resultLocal != in1 && resultLocal != out
    modifies v1Local, resultLocal, out
    ensures forall n :: 0 <= n < out.Length ==>
      out[n] == FrameStepAt(old(out[..]), old(in1[..]), jumbo, val3, ksg, n)
  {
    ghost var o := out[..];
    ghost var i0 := in1[..];
    // v1_rd
    for j := 0 to BUFFER_SIZE
      modifies v1Local
      invariant forall t :: 0 <= t < j ==> v1Local[t] == i0[jumbo + t]
    {
      v1Local[j] := in1[jumbo + j];
    }
    // v2_rd_add
    for j := 0 to BUFFER_SIZE
      modifies resultLocal
      invariant forall t :: 0 <= t < j ==> resultLocal[t] == OrWord(i0[jumbo + t], XorMask(val3, t))
    {
      var tmpV1 := v1Local[j];
      var val2 := XorMask(val3, j);
      var tmpOut := OrParallel(tmpV1, val2);
      resultLocal[j] := tmpOut;
    }
    // out_write
    for j := 0 to BUFFER_SIZE
      modifies out
      invariant forall n :: ksg <= n < ksg + j ==> out[n] == OrWord(i0[jumbo + (n - ksg)], XorMask(val3, n - ksg))
      invariant forall n :: 0 <= n < out.Length && !(ksg <= n < ksg + j) ==> out[n] == o[n]
    {
      out[ksg + j] := resultLocal[j];
    }
  }

  /** The `ksg` loop over the descriptors of table word `wordIndex`: the run that started
      from `o` goes on through the eight frames of that word. */
  method ProcessTableWord(in1: array<Word>, out: array<Word>, tmpSGV: Word, wordIndex: nat,
                          v1Local: array<Word>, resultLocal: array<Word>,
                          ghost o: seq<Word>, ghost src: Source, ghost table: seq<Word>)
    requires wordIndex < |table| && table[wordIndex] == tmpSGV
    requires OUT_SPAN <= out.Length && |o| == out.Length
    requires src == KernelSource(in1, out)
    requires FramesInside(tmpSGV, in1.Length)
    requires FramesHold(out[..], o, src, table, wordIndex, 0)
    requires v1Local.Length == BUFFER_SIZE && resultLocal.Length == BUFFER_SIZE
    requires v1Local != resultLocal
    requires v1Local != in1 && v1Local != out && resultLocal != in1 && resultLocal != out
    modifies v1Local, resultLocal, out
    ensures FramesHold(out[..], o, src, table, wordIndex, SGVECTOR_SIZE)
  {
    for ksg := 0 to SGVECTOR_SIZE
      invariant src == KernelSource(in1, out)
      invariant FramesHold(out[..], o, src, table, wordIndex, ksg)
    {
      ProcessDescriptor(in1, out, tmpSGV, wordIndex, ksg, v1Local, resultLocal, o, src, table);
    }
  }

  /** One pass of the `ksg` loop: descriptor `ksg` of table word `wordIndex` is read,
      its mask seed is formed, and the frame is processed, taking the run one frame on. */
  method ProcessDescriptor(in1: array<Word>, out: array<Word>, tmpSGV: Word, wordIndex: nat, ksg: nat,
                           v1Local: array<Word>, resultLocal: array<Word>,
                           ghost o: seq<Word>, ghost src: Source, ghost table: seq<Word>)
    requires wordIndex < |table| && table[wordIndex] == tmpSGV && ksg < SGVECTOR_SIZE
    requires OUT_SPAN <= out.Length && |o| == out.Length
    requires src == KernelSource(in1, out)
    requires FramesInside(tmpSGV, in1.Length)
    requires FramesHold(out[..], o, src, table, wordIndex, ksg)
    requires v1Local.Length == BUFFER_SIZE && resultLocal.Length == BUFFER_SIZE
    requires v1Local != resultLocal
    requires v1Local != in1 && v1Local != out && resultLocal != in1 && resultLocal != out
    modifies v1Local, resultLocal, out
    ensures FramesHold(out[..], o, src, table, wordIndex, ksg + 1)
  {
    var jumbo := Field64(tmpSGV, ksg);
    var val3 := MaskSeed(wordIndex, ksg);
    ghost var before := out[..];
    ghost var w := in1[..];
    ProcessFrame(in1, out, jumbo, val3, ksg, v1Local, resultLocal);
    FramesNext(o, src, table, wordIndex, ksg, before, w, out[..]);
  }

  /** One `sg_group`: the table words `isg .. isg + SGBUFFER_SIZE - 1` are copied to
      `sg_local` before any frame is written, then processed in order. */
  method ProcessGroup(sgin: array<Word>, in1: array<Word>, out: array<Word>, isg: nat,
                      sgLocal: array<Word>, v1Local: array<Word>, resultLocal: array<Word>,
                      ghost o: seq<Word>, ghost src: Source, ghost table: seq<Word>)
    requires isg + SGBUFFER_SIZE <= sgin.Length && isg + SGBUFFER_SIZE <= |table|
    requires forall n :: isg <= n < isg + SGBUFFER_SIZE ==> sgin[n] == table[n]
    requires OUT_SPAN <= out.Length && |o| == out.Length
    requires src == KernelSource(in1, out)
    requires TableInside(table, isg + SGBUFFER_SIZE, in1.Length)
    requires FramesHold(out[..], o, src, table, isg, 0)
    requires sgLocal.Length == SGBUFFER_SIZE
    requires v1Local.Length == BUFFER_SIZE && resultLocal.Length == BUFFER_SIZE
    requires v1Local != resultLocal
    requires v1Local != in1 && v1Local != out && resultLocal != in1 && resultLocal != out
    requires sgLocal != sgin && sgLocal != in1 && sgLocal != out
    requires sgLocal != v1Local && sgLocal != resultLocal
    modifies sgLocal, v1Local, resultLocal, out
    ensures FramesHold(out[..], o, src, table, isg + SGBUFFER_SIZE, 0)
  {
    for jsg := 0 to SGBUFFER_SIZE
      modifies sgLocal
      invariant forall t :: 0 <= t < jsg ==> sgLocal[t] == table[isg + t]
    {
      sgLocal[jsg] := sgin[isg + jsg];
    }
    for jsg := 0 to SGBUFFER_SIZE
      modifies v1Local, resultLocal, out
      invariant src == KernelSource(in1, out)
      invariant FramesHold(out[..], o, src, table, isg + jsg, 0)
    {
      var tmpSGV := sgLocal[jsg];
      TableInsideShrink(table, isg + SGBUFFER_SIZE, isg + jsg, in1.Length);
      ProcessTableWord(in1, out, tmpSGV, isg + jsg, v1Local, resultLocal, o, src, table);
      FramesWordDone(o, src, table, isg + jsg, out[..]);
    }
  }

  /** The `sg_group` loop: whole groups of `SGBUFFER_SIZE` table words while `isg` is
      below `sgsize_in16`. */
  method ProcessGroups(sgin: array<Word>, in1: array<Word>, out: array<Word>, sgsizeIn16: int,
                       sgLocal: array<Word>, v1Local: array<Word>, resultLocal: array<Word>,
                       ghost o: seq<Word>, ghost src: Source, ghost table: seq<Word>)
    requires sgin[..] == table && GroupWords(sgsizeIn16) <= |table|
    requires TableInside(table, GroupWords(sgsizeIn16), in1.Length)
    requires GroupWords(sgsizeIn16) > 0 ==> OUT_SPAN <= out.Length
    requires out[..] == o && src == KernelSource(in1, out)
    requires sgLocal.Length == SGBUFFER_SIZE
    requires v1Local.Length == BUFFER_SIZE && resultLocal.Length == BUFFER_SIZE
    requires v1Local != resultLocal
    requires v1Local != in1 && v1Local != out && resultLocal != in1 && resultLocal != out
    requires sgLocal != sgin && sgLocal != in1 && sgLocal != out
    requires sgLocal != v1Local && sgLocal != resultLocal
    modifies sgLocal, v1Local, resultLocal, out
    ensures FramesHold(out[..], o, src, table, GroupWords(sgsizeIn16), 0)
  {
    var isg := 0;
    while isg < sgsizeIn16
      invariant 0 <= isg && isg + GroupWords(sgsizeIn16 - isg) == GroupWords(sgsizeIn16)
      invariant src == KernelSource(in1, out)
      invariant forall n :: isg <= n < sgin.Length ==> sgin[n] == table[n]
      invariant FramesHold(out[..], o, src, table, isg, 0)
      decreases sgsizeIn16 - isg
    {
      ProcessGroup(sgin, in1, out, isg, sgLocal, v1Local, resultLocal, o, src, table);
      FramesOutside(o, src, table, isg + SGBUFFER_SIZE, 0);
      isg := isg + SGBUFFER_SIZE;
    }
  }

  /** `vadd(sgin, in1, out, size)`. The table words are processed in order and each one
      rewrites `out[0 .. OUT_SPAN)`, so `out` ends up as `FramesAt` of its old contents
      over every frame of every table word read, each frame read from `in1` as it then
      stands. Every table word is read before any write reaches it, so the table seen is
      the old one even when `sgin` and `out` are one array. With `in1` distinct from
      `out` the window ends as the last table word read leaves it; in every case nothing
      from `OUT_SPAN` on changes, and nothing at all when fewer than eight frames are
      asked for. */
  method Vadd(sgin: array<Word>, in1: array<Word>, out: array<Word>, size: Int32)
    requires WordsRead(size) <= sgin.Length
    requires TableInside(sgin[..], WordsRead(size), in1.Length)
    requires WordsRead(size) > 0 ==> OUT_SPAN <= out.Length
    modifies out
    ensures FramesHold(out[..], old(out[..]), old(KernelSource(in1, out)), old(sgin[..]), WordsRead(size), 0)
    ensures WordsRead(size) == 0 ==> out[..] == old(out[..])
    ensures out != in1 && WordsRead(size) > 0 ==>
      TableWordWritten(out[..], old(sgin[WordsRead(size) - 1]), old(in1[..]))
    ensures forall n :: OUT_SPAN <= n < out.Length ==> out[n] == old(out[n])
  {
    ghost var o := out[..];
    ghost var i0 := in1[..];
    ghost var table := sgin[..];
    ghost var src := KernelSource(in1, out);
    var sgLocal := new Word[SGBUFFER_SIZE](_ => Zero());
    var v1Local := new Word[BUFFER_SIZE](_ => Zero());
    var resultLocal := new Word[BUFFER_SIZE](_ => Zero());
    var sgsizeIn16 := CDiv(size, SGVECTOR_SIZE);
    ProcessGroups(sgin, in1, out, sgsizeIn16, sgLocal, v1Local, resultLocal, o, src, table);
    var c := WordsRead(size);
    if c > 0 && out != in1 {
      TableInsideShrink(table, c, c - 1, |i0|);
      FramesSeparate(o, i0, table, c, out[..]);
    }
    FramesOutside(o, src, table, c, 0);
  }
}
