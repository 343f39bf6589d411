/** The 08.4 `vadd` kernel: a scatter-gather table of 64-bit descriptors names jumbo
    frames of `BUFFER_SIZE` 512-bit words in `in1`; each frame is added to itself lane
    by lane and written to `out`.

    The output index in the source is `i + j`, where `i` is not declared in the
    function; it is the parameter `outBase` here, so every frame is written to the
    same window `out[outBase .. outBase + BUFFER_SIZE)`. */
module VaddGather64 {
  import opened Words
  import opened LaneAdd

  /** 16 ticks of 256 channels of 14-bit samples: one jumbo frame, in 512-bit words. */
  const BUFFER_SIZE: nat := 114
  const SGDESC_SIZE: nat := 64
  const SGBUFFER_SIZE: nat := 1024

  /** `sgin_type`, an `ap_uint<64>`: the word index of a jumbo frame in `in1`. */
  type SgDescriptor = U64

  /** The word made by `v2_rd_add` from a frame word, whose two operands are both that
      word (`tmpV2 = v1_local[j]`). */
  function DoubleWord(w: Word): Word
  {
    SumWord(w, w)
  }

  /** Each lane of a doubled word is the original lane shifted left by one bit: twice the
      lane, less 2^32 when its top bit was set. The result lanes are all even. */
  lemma DoubleWordLanes(w: Word, k: nat)
    requires k < VECTOR_SIZE
    ensures w[k] < 0x8000_0000 ==> DoubleWord(w)[k] == 2 * w[k] as nat
    ensures w[k] >= 0x8000_0000 ==> DoubleWord(w)[k] == 2 * w[k] as nat - 0x1_0000_0000
    ensures DoubleWord(w)[k] % 2 == 0
  {
    SumWordLanes(w, w, k);
  }

  /** Number of iterations of the `sg_group` loop. */
  function Groups(size: Int32): nat
  {
    if size <= 0 then 0 else (size + SGBUFFER_SIZE - 1) / SGBUFFER_SIZE
  }

  /** Number of descriptors the kernel reads: whole groups of `SGBUFFER_SIZE`. */
  function DescriptorsRead(size: Int32): (r: nat)
    ensures r > 0 <==> Groups(size) > 0
  {
    Groups(size) * SGBUFFER_SIZE
  }

  /** The kernel reads `size` descriptors rounded up to a whole group; every one of them
      is used, so the last one read decides the output. */
  lemma DescriptorsReadIsRoundUp(size: Int32)
    ensures DescriptorsRead(size) % SGBUFFER_SIZE == 0
    ensures DescriptorsRead(size) == 0 <==> size <= 0
    ensures size > 0 ==> size <= DescriptorsRead(size) < size + SGBUFFER_SIZE as int
  {
  }

  lemma GroupWithin(size: Int32, isg: int)
    requires 0 <= isg < size && isg % SGBUFFER_SIZE == 0
    ensures isg + SGBUFFER_SIZE <= DescriptorsRead(size)
  {
  }

  lemma LoopExit(size: Int32, isg: int)
    requires 0 <= isg <= DescriptorsRead(size) && isg % SGBUFFER_SIZE == 0 && isg >= size
    ensures isg == DescriptorsRead(size)
    ensures isg > 0 <==> Groups(size) > 0
  {
  }

  /** The output window holds the doubled words of the frame at word `jumbo`. */
  ghost predicate FrameWritten(out: seq<Word>, outBase: int, in1: seq<Word>, jumbo: nat)
  {
    0 <= outBase && outBase + BUFFER_SIZE <= |out| && jumbo + BUFFER_SIZE <= |in1| &&
    forall n :: outBase <= n < outBase + BUFFER_SIZE ==> out[n] == DoubleWord(in1[jumbo + (n - outBase)])
  }

  /** Word n of the output after the frame at word `jumbo` of `src` has been doubled into
      the window `out[outBase .. outBase + BUFFER_SIZE)`. */
  ghost function FrameStepAt(o: seq<Word>, src: seq<Word>, jumbo: nat, outBase: int, n: nat): Word
    requires jumbo + BUFFER_SIZE <= |src| && n < |o|
  {
    if outBase <= n < outBase + BUFFER_SIZE then DoubleWord(src[jumbo + (n - outBase)]) else o[n]
  }

  /** Every one of the first `c` descriptors names a frame inside a source of `inLength` words. */
  ghost predicate DescriptorsInside(descs: seq<SgDescriptor>, c: nat, inLength: nat)
    requires c <= |descs|
  {
    forall n :: 0 <= n < c ==> descs[n] + BUFFER_SIZE <= inLength
  }

  /** Word n of the output after the frames of the first `c` descriptors, in order, over
      `o`. Each frame is read in full before it is written; with `InPlace` it reads the
      output as the frames before it left it. The kernel is only run on descriptors
      whose frames lie inside the source (`Vadd` requires it); a frame that does not
      leaves the output as it is, so that `FramesAt` needs no precondition beyond its
      indices. */
  ghost function FramesAt(o: seq<Word>, src: Source, descs: seq<SgDescriptor>, c: nat, outBase: int, n: nat): Word
    requires c <= |descs| && n < |o|
    decreases c
  {
    if c == 0 then o[n]
    else
      var jumbo := descs[c - 1];
      if jumbo + BUFFER_SIZE <= SourceLength(src, |o|) && outBase <= n < outBase + BUFFER_SIZE then
        var m := jumbo + (n - outBase);
        DoubleWord(if src.InPlace? then FramesAt(o, src, descs, c - 1, outBase, m) else src.words[m])
      else
        FramesAt(o, src, descs, c - 1, outBase, n)
  }

  /** `r` is the output after those frames. */
  ghost predicate FramesHold(r: seq<Word>, o: seq<Word>, src: Source, descs: seq<SgDescriptor>, c: nat, outBase: int)
    requires c <= |descs|
  {
    |r| == |o| && forall n :: 0 <= n < |o| ==> r[n] == FramesAt(o, src, descs, c, outBase, n)
  }

  /** One more frame, that of descriptor c, inside the source: it reads `w`, the source
      as the frames so far have left it, and writes `r`. */
  lemma FramesNext(o: seq<Word>, src: Source, descs: seq<SgDescriptor>, c: nat, outBase: int,
                   before: seq<Word>, w: seq<Word>, r: seq<Word>)
    requires c < |descs| && FramesHold(before, o, src, descs, c, outBase)
    requires w == SourceWords(src, before) && |w| == SourceLength(src, |o|)
    requires descs[c] + BUFFER_SIZE <= |w|
    requires |r| == |o|
    requires forall n :: 0 <= n < |r| ==> r[n] == FrameStepAt(before, w, descs[c], outBase, n)
    ensures FramesHold(r, o, src, descs, c + 1, outBase)
  {
    forall n | 0 <= n < |o|
      ensures r[n] == FramesAt(o, src, descs, c + 1, outBase, n)
    {
      if outBase <= n < outBase + BUFFER_SIZE {
        var m := descs[c] + (n - outBase);
        assert w[m] == if src.InPlace? then FramesAt(o, src, descs, c, outBase, m) else src.words[m];
      }
    }
  }

  /** Words outside the output window keep their value, whatever the frames read. */
  lemma {:induction false} FramesOutside(o: seq<Word>, src: Source, descs: seq<SgDescriptor>, c: nat, outBase: int)
    requires c <= |descs|
    ensures forall n :: 0 <= n < |o| && !(outBase <= n < outBase + BUFFER_SIZE) ==>
      FramesAt(o, src, descs, c, outBase, n) == o[n]
    decreases c
  {
    if c > 0 {
      FramesOutside(o, src, descs, c - 1, outBase);
    }
  }

  /** With an input array distinct from `out`, the window holds the doubled frame of the
      last descriptor, whatever the earlier ones named. */
  lemma FramesSeparate(o: seq<Word>, d: seq<Word>, descs: seq<SgDescriptor>, c: nat, outBase: int, r: seq<Word>)
    requires 0 < c <= |descs| && 0 <= outBase && outBase + BUFFER_SIZE <= |o|
    requires descs[c - 1] + BUFFER_SIZE <= |d|
    requires FramesHold(r, o, Separate(d), descs, c, outBase)
    ensures FrameWritten(r, outBase, d, descs[c - 1])
  {
  }

  /** `in1 == out` changes nothing when no frame overlaps the output window: every frame
      then reads words no frame has written. */
  lemma {:induction false} FramesInPlaceAgree(o: seq<Word>, descs: seq<SgDescriptor>, c: nat, outBase: int)
    requires c <= |descs|
    requires forall n :: 0 <= n < c ==> descs[n] + BUFFER_SIZE <= outBase || outBase + BUFFER_SIZE <= descs[n]
    ensures forall n :: 0 <= n < |o| ==>
      FramesAt(o, InPlace, descs, c, outBase, n) == FramesAt(o, Separate(o), descs, c, outBase, n)
    decreases c
  {
    if c > 0 {
      FramesInPlaceAgree(o, descs, c - 1, outBase);
      FramesOutside(o, InPlace, descs, c - 1, outBase);
    }
  }

  /** One jumbo frame through `v1_rd`, `v2_rd_add` and `out_write`: the frame is read in
      full into `v1_local` before anything is written, so each word of `out` is
      `FrameStepAt` of the old contents even when `in1` and `out` are the same array. */
  method ProcessFrame(in1: array<Word>, out: array<Word>, jumbo: SgDescriptor, outBase: int,
                      v1Local: array<Word>, resultLocal: array<Word>)
    requires jumbo + BUFFER_SIZE <= in1.Length
    requires 0 <= outBase && outBase + BUFFER_SIZE <= out.Length
    requires v1Local.Length == BUFFER_SIZE && resultLocal.Length == BUFFER_SIZE
    requires v1Local != resultLocal
    requires v1Local != in1 && v1Local != out && resultLocal != in1 && resultLocal != out
    modifies v1Local, resultLocal, out
    ensures forall n :: 0 <= n < out.Length ==>
      out[n] == FrameStepAt(old(out[..]), old(in1[..]), jumbo, outBase, n)
  {
    ghost var o := out[..];
    ghost var i0 := in1[..];
    // v1_rd
    for j := 0 to BUFFER_SIZE
      modifies v1Local
      invariant forall t :: 0 <= t < j ==> v1Local[t] == i0[jumbo + t]
    {
      v1Local[j] := in1[jumbo + j];
    }
    // v2_rd_add
    for j := 0 to BUFFER_SIZE
      modifies resultLocal
      invariant forall t :: 0 <= t < j ==> resultLocal[t] == DoubleWord(i0[jumbo + t])
    {
      var tmpV1 := v1Local[j];
      var tmpV2 := v1Local[j];
      var tmpOut := ParallelAdd(tmpV1, tmpV2);
      resultLocal[j] := tmpOut;
    }
    // out_write
    for j := 0 to BUFFER_SIZE
      modifies out
      invariant forall n :: outBase <= n < outBase + j ==> out[n] == DoubleWord(i0[jumbo + (n - outBase)])
      invariant forall n :: 0 <= n < out.Length && !(outBase <= n < outBase + j) ==> out[n] == o[n]
    {
      out[outBase + j] := resultLocal[j];
    }
  }

  /** One pass of the inner `sg_group` loop: the frame of descriptor `c`, held in
      `sg_local`, is processed, taking the run one frame on. */
  method ProcessDescriptor(in1: array<Word>, out: array<Word>, jumbo: SgDescriptor, c: nat, outBase: int,
                           v1Local: array<Word>, resultLocal: array<Word>,
                           ghost o: seq<Word>, ghost src: Source, ghost descs: seq<SgDescriptor>)
    requires c < |descs| && descs[c] == jumbo && jumbo + BUFFER_SIZE <= in1.Length
    requires 0 <= outBase && outBase + BUFFER_SIZE <= out.Length && |o| == out.Length
    requires src == KernelSource(in1, out)
    requires FramesHold(out[..], o, src, descs, c, outBase)
    requires v1Local.Length == BUFFER_SIZE && resultLocal.Length == BUFFER_SIZE
    requires v1Local != resultLocal
    requires v1Local != in1 && v1Local != out && resultLocal != in1 && resultLocal != out
    modifies v1Local, resultLocal, out
    ensures FramesHold(out[..], o, src, descs, c + 1, outBase)
  {
    ghost var before := out[..];
    ghost var w := in1[..];
    ProcessFrame(in1, out, jumbo, outBase, v1Local, resultLocal);
    FramesNext(o, src, descs, c, outBase, before, w, out[..]);
  }

  /** One `sg_group`: the descriptors `isg .. isg + SGBUFFER_SIZE - 1` are copied to
      `sg_local`, then their frames are processed in order. */
  method ProcessGroup(sgin: array<SgDescriptor>, in1: array<Word>, out: array<Word>, isg: nat, outBase: int,
                      sgLocal: array<SgDescriptor>, v1Local: array<Word>, resultLocal: array<Word>,
                      ghost o: seq<Word>, ghost src: Source)
    requires isg + SGBUFFER_SIZE <= sgin.Length && sgLocal.Length == SGBUFFER_SIZE && sgLocal != sgin
    requires 0 <= outBase && outBase + BUFFER_SIZE <= out.Length && |o| == out.Length
    requires src == KernelSource(in1, out)
    requires DescriptorsInside(sgin[..], isg + SGBUFFER_SIZE, in1.Length)
    requires FramesHold(out[..], o, src, sgin[..], isg, outBase)
    requires v1Local.Length == BUFFER_SIZE && resultLocal.Length == BUFFER_SIZE
    requires v1Local != resultLocal
    requires v1Local != in1 && v1Local != out && resultLocal != in1 && resultLocal != out
    modifies sgLocal, v1Local, resultLocal, out
    ensures out != in1 ==> in1[..] == old(in1[..])
    ensures FramesHold(out[..], o, src, sgin[..], isg + SGBUFFER_SIZE, outBase)
  {
    for jsg := 0 to SGBUFFER_SIZE
      modifies sgLocal
      invariant forall t :: 0 <= t < jsg ==> sgLocal[t] == sgin[isg + t]
    {
      sgLocal[jsg] := sgin[isg + jsg];
    }
    for jsg := 0 to SGBUFFER_SIZE
      modifies v1Local, resultLocal, out
      invariant out != in1 ==> in1[..] == old(in1[..])
      invariant FramesHold(out[..], o, src, sgin[..], isg + jsg, outBase)
    {
      var jumbo := sgLocal[jsg];
      assert jumbo == sgin[..][isg + jsg];
      ProcessDescriptor(in1, out, jumbo, isg + jsg, outBase, v1Local, resultLocal, o, src, sgin[..]);
    }
  }

  /** The `sg_group` loop: whole groups of `SGBUFFER_SIZE` descriptors while `isg` is
      below `size`. */
  method ProcessGroups(sgin: array<SgDescriptor>, in1: array<Word>, out: array<Word>, size: Int32, outBase: int,
                       sgLocal: array<SgDescriptor>, v1Local: array<Word>, resultLocal: array<Word>,
                       ghost o: seq<Word>, ghost src: Source)
    requires sgin.Length >= DescriptorsRead(size) && sgLocal.Length == SGBUFFER_SIZE && sgLocal != sgin
    requires DescriptorsInside(sgin[..], DescriptorsRead(size), in1.Length)
    requires Groups(size) > 0 ==> 0 <= outBase && outBase + BUFFER_SIZE <= out.Length
    requires out[..] == o && src == KernelSource(in1, out)
    requires v1Local.Length == BUFFER_SIZE && resultLocal.Length == BUFFER_SIZE
    requires v1Local != resultLocal
    requires v1Local != in1 && v1Local != out && resultLocal != in1 && resultLocal != out
    modifies sgLocal, v1Local, resultLocal, out
    ensures out != in1 ==> in1[..] == old(in1[..])
    ensures FramesHold(out[..], o, src, sgin[..], DescriptorsRead(size), outBase)
  {
    var sgsizeIn16 := size;
    var isg := 0;
    while isg < sgsizeIn16
      invariant 0 <= isg <= DescriptorsRead(size) && isg % SGBUFFER_SIZE == 0
      invariant out != in1 ==> in1[..] == old(in1[..])
      invariant FramesHold(out[..], o, src, sgin[..], isg, outBase)
      decreases sgsizeIn16 - isg
    {
      GroupWithin(size, isg);
      ProcessGroup(sgin, in1, out, isg, outBase, sgLocal, v1Local, resultLocal, o, src);
      isg := isg + SGBUFFER_SIZE;
    }
    LoopExit(size, isg);
  }

  /** `vadd(sgin, in1, out, size)`. Frames are processed in descriptor order and each
      overwrites the output window, so `out` ends up as `FramesAt` of its old contents
      over every descriptor read, reading `in1` as it stands when `in1` and `out` are one
      array. With distinct arrays the window holds the doubled frame named by the last
      descriptor read; in every case nothing outside the window changes, and nothing at
      all when `size <= 0`. */
  method Vadd(sgin: array<SgDescriptor>, in1: array<Word>, out: array<Word>, size: Int32, outBase: int)
    requires sgin.Length >= DescriptorsRead(size)
    requires forall n :: 0 <= n < DescriptorsRead(size) ==> sgin[n] + BUFFER_SIZE <= in1.Length
    requires Groups(size) > 0 ==> 0 <= outBase && outBase + BUFFER_SIZE <= out.Length
    modifies out
    ensures FramesHold(out[..], old(out[..]), old(KernelSource(in1, out)), sgin[..], DescriptorsRead(size), outBase)
    ensures Groups(size) == 0 ==> out[..] == old(out[..])
    ensures out != in1 && Groups(size) > 0 ==>
      FrameWritten(out[..], outBase, old(in1[..]), sgin[DescriptorsRead(size) - 1])
    ensures forall n :: 0 <= n < out.Length && !(outBase <= n < outBase + BUFFER_SIZE) ==>
      out[n] == old(out[n])
  {
    ghost var o := out[..];
    ghost var i0 := in1[..];
    ghost var src := KernelSource(in1, out);
    assert DescriptorsInside(sgin[..], DescriptorsRead(size), in1.Length);
    var sgLocal := new SgDescriptor[SGBUFFER_SIZE];
    var v1Local := new Word[BUFFER_SIZE](_ => Zero());
    var resultLocal := new Word[BUFFER_SIZE](_ => Zero());
    ProcessGroups(sgin, in1, out, size, outBase, sgLocal, v1Local, resultLocal, o, src);
    var c := DescriptorsRead(size);
    if c > 0 && out != in1 {
      FramesSeparate(o, i0, sgin[..], c, outBase, out[..]);
    }
    FramesOutside(o, src, sgin[..], c, outBase);
  }
}
