/** The DUNE `xrtn` kernel `vadd(sginoutt, sgoutd, in, outd, outt, size)`.

    Word 0 of `sginoutt` holds two 32-bit offsets: `descin` (lane 0) and `desct` (lane 1).
    The kernel reads `IN_SIZE` words of configuration from `in` into `in_local`, then walks
    the table `sgoutd` in sections of `SGREADCLUMP` words, each word holding
    `SGVECTORSIZE` 32-bit descriptors; for every descriptor it writes the `FRAME_WORDS`
    words of a jumbo frame to `outd`, and finally it writes `TRIG_SIZE` words of
    trigger-primitive output to `outt` from `desct` on.

    As written, every run indexes `in_local` out of bounds before it finishes
    (`VaddAsWritten`, `FirstFault`). `Vadd` is the kernel with the four faulty index
    expressions corrected; the corrections are listed with `VaddAsWritten`. */
module XrtnKernel {
  import opened Words
  import C = XrtnConfig

  // ---------------------------------------------------------------------------
  // Loop counts and descriptors

  /** `size_in16 = size / (SGREADCLUMP * SGVECTORSIZE)`: whole sections of 256 frames. */
  function Sections(size: Int32): int
  {
    CDiv(size, C.SGREADCLUMP * C.SGVECTORSIZE)
  }

  /** Table words the section loop reads: `sgoutd[i + j]` for `i` stepping by
      `SGREADCLUMP` below `size_in16 * SGVECTORSIZE` and `j < SGREADCLUMP`. */
  function TableWords(size: Int32): (r: nat)
    ensures r % C.SGREADCLUMP == 0
    ensures r > 0 <==> Sections(size) > 0
  {
    if Sections(size) <= 0 then 0 else Sections(size) * C.SGREADCLUMP
  }

  /** Only whole sections are processed: the frames of a last, partial section are
      dropped, and nothing is written to `outd` for fewer than 256 frames. */
  lemma FramesProcessed(size: Int32)
    ensures size >= 0 ==> TableWords(size) * C.SGVECTORSIZE <= size < TableWords(size) * C.SGVECTORSIZE + 256
    ensures TableWords(size) == 0 <==> size < 256
    ensures size == 1024 ==> Sections(size) == 4 && TableWords(size) == 64
  {
  }

  lemma SectionWithin(size: Int32, i: int)
    requires 0 <= i < Sections(size) * C.SGVECTORSIZE && i % C.SGREADCLUMP == 0
    ensures i + C.SGREADCLUMP <= TableWords(size)
  {
  }

  lemma SectionLoopExit(size: Int32, i: int)
    requires 0 <= i <= TableWords(size) && i % C.SGREADCLUMP == 0 && i >= Sections(size) * C.SGVECTORSIZE
    ensures i == TableWords(size)
  {
  }

  lemma SectionLoopEntry(size: Int32)
    ensures 0 < Sections(size) * C.SGVECTORSIZE <==> Sections(size) > 0
  {
  }

  lemma NextSection(i: int)
    ensures C.SGVECTORSIZE * (i + C.SGREADCLUMP) == C.SGVECTORSIZE * i + C.SGREADCLUMP * C.SGVECTORSIZE
  {
  }

  /** Descriptor n of the table, in processing order: lane `jd = n % 16` (bits
      [32 jd, 32 jd + 31]) of table word `n / 16`. */
  function Descriptor(table: seq<Word>, n: nat): U32
    requires n < C.SGVECTORSIZE * |table|
  {
    table[n / C.SGVECTORSIZE][n % C.SGVECTORSIZE]
  }

  lemma DescriptorNumber(t: nat, jd: nat)
    requires jd < C.SGVECTORSIZE
    ensures (C.SGVECTORSIZE * t + jd) / C.SGVECTORSIZE == t
    ensures (C.SGVECTORSIZE * t + jd) % C.SGVECTORSIZE == jd
  {
    var n := C.SGVECTORSIZE * t + jd;
    var q, r := n / C.SGVECTORSIZE, n % C.SGVECTORSIZE;
    assert C.SGVECTORSIZE * (q - t) == jd - r;
  }

  // ---------------------------------------------------------------------------
  // What the corrected kernel writes

  /** The `in_local` word read for frame position `iw`, corrected: the index is reduced
      into the 16-word buffer. */
  function InIndex(iw: nat): (r: nat)
    ensures r < C.IN_SIZE
  {
    BitXor(iw, C.IN_SIZE) % C.IN_SIZE
  }

  /** Frame positions are multiples of 16, and for them the corrected index is always 0:
      `iw ^ 16` only flips bit 4, which `% 16` drops. Every word of a frame is built from
      `in_local[0]`. */
  lemma InIndexAtFrameWord(iw: nat)
    requires iw % C.VECTOR_SIZE == 0
    ensures InIndex(iw) == 0
  {
    var q := iw / C.VECTOR_SIZE;
    assert iw == 2 * (2 * (2 * (2 * q)));
    BitXorShift(8 * q, 8);
    BitXorShift(4 * q, 4);
    BitXorShift(2 * q, 2);
    BitXorShift(q, 1);
    assert BitXor(iw, C.IN_SIZE) == C.VECTOR_SIZE * BitXor(q, 1);
  }

  /** The word of every lane equal to `v`. */
  function Fill(v: U32): (r: Word)
    ensures forall k :: 0 <= k < VECTOR_SIZE ==> r[k] == v
  {
    seq(VECTOR_SIZE, _ => v)
  }

  /** The frame word written at `outd[desc + iw]` for table word `t = i + jc`: each lane is
      the low 32 bits of `t + in_local[...]`, which depend only on lane 0 of the
      `in_local` word. */
  function FrameWord(t: nat, inLocal: seq<Word>, iw: nat): Word
    requires |inLocal| == C.IN_SIZE
  {
    Fill((t + inLocal[InIndex(iw)][0]) % 0x1_0000_0000)
  }

  /** `outd[p]` belongs to the frame of descriptor `desc`: `p = desc + iw` with `iw` a
      multiple of 16 below `FRAME_LANES`. The frame is strided: it covers every
      sixteenth word of `desc .. desc + FRAME_LANES - 16`. */
  predicate FrameSlot(desc: nat, p: nat)
  {
    desc <= p && (p - desc) % C.VECTOR_SIZE == 0 && p - desc < C.FRAME_LANES
  }

  /** Word p of `outd` after descriptors `lo .. hi - 1` of the table have been written,
      in order, over `o`: the frame of the last of them that covers p decides it. */
  ghost function WritesAt(o: seq<Word>, table: seq<Word>, cfg: seq<Word>, lo: nat, hi: nat, p: nat): Word
    requires |cfg| == C.IN_SIZE && hi <= C.SGVECTORSIZE * |table| && p < |o|
    decreases hi
  {
    if hi <= lo then o[p]
    else if FrameSlot(Descriptor(table, hi - 1), p) then
      FrameWord((hi - 1) / C.SGVECTORSIZE, cfg, p - Descriptor(table, hi - 1))
    else WritesAt(o, table, cfg, lo, hi - 1, p)
  }

  /** Writing descriptors `lo .. mid - 1` and then `mid .. hi - 1` is writing
      `lo .. hi - 1`. */
  lemma {:induction false} WritesCompose(o: seq<Word>, a: seq<Word>, table: seq<Word>, cfg: seq<Word>,
                                         lo: nat, mid: nat, hi: nat)
    requires |cfg| == C.IN_SIZE && lo <= mid <= hi <= C.SGVECTORSIZE * |table| && |a| == |o|
    requires forall q :: 0 <= q < |o| ==> a[q] == WritesAt(o, table, cfg, lo, mid, q)
    ensures forall p :: 0 <= p < |o| ==> WritesAt(a, table, cfg, mid, hi, p) == WritesAt(o, table, cfg, lo, hi, p)
    decreases hi
  {
    if hi > mid {
      WritesCompose(o, a, table, cfg, lo, mid, hi - 1);
    }
  }

  /** A word that no frame covers keeps its value. */
  lemma {:induction false} WritesUntouched(o: seq<Word>, table: seq<Word>, cfg: seq<Word>, lo: nat, hi: nat, p: nat)
    requires |cfg| == C.IN_SIZE && hi <= C.SGVECTORSIZE * |table| && p < |o|
    requires forall n :: lo <= n < hi ==> !FrameSlot(Descriptor(table, n), p)
    ensures WritesAt(o, table, cfg, lo, hi, p) == o[p]
    decreases hi
  {
    if hi > lo {
      WritesUntouched(o, table, cfg, lo, hi - 1, p);
    }
  }

  /** A word covered by several frames holds the value of the last of them: descriptor
      n, from table word n / 16. */
  lemma {:induction false} WritesLast(o: seq<Word>, table: seq<Word>, cfg: seq<Word>, lo: nat, hi: nat, n: nat, p: nat)
    requires |cfg| == C.IN_SIZE && hi <= C.SGVECTORSIZE * |table| && p < |o|
    requires lo <= n < hi && FrameSlot(Descriptor(table, n), p)
    requires forall m :: n < m < hi ==> !FrameSlot(Descriptor(table, m), p)
    ensures WritesAt(o, table, cfg, lo, hi, p) == FrameWord(n / C.SGVECTORSIZE, cfg, p - Descriptor(table, n))
    decreases hi
  {
    if n < hi - 1 {
      WritesLast(o, table, cfg, lo, hi - 1, n, p);
    }
  }

  // ---------------------------------------------------------------------------
  // The corrected kernel

  /** `dataw2_loop`, corrected: lane `iv` of `tmpOut` receives `res` for every `iv`. */
  method BuildFrameWord(t: nat, inLocal: array<Word>, iw: nat, ghost cfg: seq<Word>) returns (tmpOut: Word)
    requires inLocal[..] == cfg && |cfg| == C.IN_SIZE
    ensures tmpOut == FrameWord(t, cfg, iw)
  {
    tmpOut := Zero();
    for iv := 0 to C.VECTOR_SIZE
      invariant forall k :: 0 <= k < iv ==> tmpOut[k] == FrameWord(t, cfg, iw)[k]
    {
      var res := (t + inLocal[InIndex(iw)][0]) % 0x1_0000_0000;
      tmpOut := tmpOut[iv := res];
    }
  }

  /** Word `desc + iw` is the next slot of the frame at `desc`: the slots below
      `iw + 16` are those below `iw` and that one. */
  lemma FrameSlotStep(desc: nat, iw: nat)
    requires iw % C.VECTOR_SIZE == 0 && iw < C.FRAME_LANES
    ensures forall p: nat :: (FrameSlot(desc, p) && p - desc < iw + C.VECTOR_SIZE) <==>
      ((FrameSlot(desc, p) && p - desc < iw) || p == desc + iw)
  {
    forall p: nat | FrameSlot(desc, p) && iw <= p - desc < iw + C.VECTOR_SIZE
      ensures p == desc + iw
    {
      var q := iw / C.VECTOR_SIZE;
      var d := p - desc;
      assert iw == C.VECTOR_SIZE * q;
      assert d == C.VECTOR_SIZE * (d / C.VECTOR_SIZE);
    }
  }

  /** `dataw1_loop` for one descriptor, with the `dataw2_loop` lane store using `iv`. */
  method WriteDescriptor(outd: array<Word>, desc: U32, i: nat, jc: nat, inLocal: array<Word>,
                         ghost cfg: seq<Word>)
    requires inLocal[..] == cfg && |cfg| == C.IN_SIZE && inLocal != outd
    requires desc + C.FRAME_LANES - C.VECTOR_SIZE < outd.Length
    modifies outd
    ensures forall p :: 0 <= p < outd.Length ==>
      outd[p] == if FrameSlot(desc, p) then FrameWord(i + jc, cfg, p - desc) else old(outd[p])
  {
    ghost var o := outd[..];
    var iw := 0;
    while iw < C.FRAME_LANES
      invariant 0 <= iw <= C.FRAME_LANES && iw % C.VECTOR_SIZE == 0
      invariant forall p :: 0 <= p < outd.Length ==>
        outd[p] == if FrameSlot(desc, p) && p - desc < iw then FrameWord(i + jc, cfg, p - desc) else o[p]
      decreases C.FRAME_LANES - iw
    {
      var tmpOut := BuildFrameWord(i + jc, inLocal, iw, cfg);
      FrameSlotStep(desc, iw);
      outd[desc + iw] := tmpOut;
      iw := iw + C.VECTOR_SIZE;
    }
  }

  /** Every descriptor of the first `words` table words names a frame inside `outd`: its
      last word, `desc + FRAME_LANES - 16`, is a word of `outd`. */
  ghost predicate FramesInside(table: seq<Word>, words: nat, outdLength: nat)
    requires words <= |table|
  {
    forall t, jd :: 0 <= t < words && 0 <= jd < C.SGVECTORSIZE ==> table[t][jd] + C.FRAME_LANES - C.VECTOR_SIZE < outdLength
  }

  /** `sgclump2_loop` for table word `t = i + jc`, whose descriptors are numbers `n0 ..
      n0 + 15`: its 16 descriptors in lane order. */
  method WriteTableWord(outd: array<Word>, sgWord: Word, i: nat, jc: nat, inLocal: array<Word>,
                        ghost table: seq<Word>, ghost cfg: seq<Word>, ghost n0: nat)
    requires i + jc < |table| && table[i + jc] == sgWord && n0 == C.SGVECTORSIZE * (i + jc)
    requires forall jd :: 0 <= jd < C.SGVECTORSIZE ==> sgWord[jd] + C.FRAME_LANES - C.VECTOR_SIZE < outd.Length
    requires inLocal[..] == cfg && |cfg| == C.IN_SIZE && outd != inLocal
    modifies outd
    ensures forall p :: 0 <= p < outd.Length ==>
      outd[p] == WritesAt(old(outd[..]), table, cfg, n0, n0 + C.SGVECTORSIZE, p)
  {
    ghost var o := outd[..];
    for jd := 0 to C.SGVECTORSIZE
      invariant forall p :: 0 <= p < outd.Length ==> outd[p] == WritesAt(o, table, cfg, n0, n0 + jd, p)
    {
      var desc := sgWord[jd];
      DescriptorNumber(i + jc, jd);
      WriteDescriptor(outd, desc, i, jc, inLocal, cfg);
    }
  }

  /** `sgoutd_rd`: the section's table words into `sgoutd_local`. */
  method ReadSection(sgoutd: array<Word>, i: nat, sgoutdLocal: array<Word>)
    requires i + C.SGREADCLUMP <= sgoutd.Length && sgoutdLocal.Length == C.SGREADCLUMP
    requires sgoutdLocal != sgoutd
    modifies sgoutdLocal
    ensures forall t :: 0 <= t < C.SGREADCLUMP ==> sgoutdLocal[t] == sgoutd[i + t]
  {
    for j := 0 to C.SGREADCLUMP
      invariant forall t :: 0 <= t < j ==> sgoutdLocal[t] == sgoutd[i + t]
    {
      sgoutdLocal[j] := sgoutd[i + j];
    }
  }

  /** One section, table words `i .. i + 15`, whose descriptors are numbers `n0 ..
      n0 + 255`: `sgoutd_rd`, then `sgclump1_loop` over the 16 table words. */
  method WriteSection(sgoutd: array<Word>, outd: array<Word>, i: nat, inLocal: array<Word>,
                      sgoutdLocal: array<Word>, ghost table: seq<Word>, ghost cfg: seq<Word>,
                      ghost n0: nat)
    requires sgoutd[..] == table && i + C.SGREADCLUMP <= |table| && n0 == C.SGVECTORSIZE * i
    requires FramesInside(table, i + C.SGREADCLUMP, outd.Length)
    requires inLocal[..] == cfg && |cfg| == C.IN_SIZE && sgoutdLocal.Length == C.SGREADCLUMP
    requires outd != sgoutd && outd != inLocal && outd != sgoutdLocal
    requires sgoutdLocal != sgoutd && sgoutdLocal != inLocal
    modifies outd, sgoutdLocal
    ensures forall p :: 0 <= p < outd.Length ==>
      outd[p] == WritesAt(old(outd[..]), table, cfg, n0, n0 + C.SGREADCLUMP * C.SGVECTORSIZE, p)
  {
    ghost var o := outd[..];
    ReadSection(sgoutd, i, sgoutdLocal);
    ghost var n := n0;
    for jc := 0 to C.SGREADCLUMP
      modifies outd
      invariant n == n0 + C.SGVECTORSIZE * jc
      invariant forall p :: 0 <= p < outd.Length ==> outd[p] == WritesAt(o, table, cfg, n0, n, p)
    {
      ghost var mid := outd[..];
      WriteTableWord(outd, sgoutdLocal[jc], i, jc, inLocal, table, cfg, n);
      WritesCompose(o, mid, table, cfg, n0, n, n + C.SGVECTORSIZE);
      n := n + C.SGVECTORSIZE;
    }
  }

  /** The 16 configuration words starting at `descin`. */
  ghost function InBlock(input: seq<Word>, descin: nat): (r: seq<Word>)
    requires descin + C.IN_SIZE <= |input|
    ensures |r| == C.IN_SIZE
  {
    input[descin .. descin + C.IN_SIZE]
  }

  /** The loop over sections: `size_in16` sections, in table order. */
  method WriteSections(sgoutd: array<Word>, outd: array<Word>, size: Int32, inLocal: array<Word>,
                       sgoutdLocal: array<Word>, ghost table: seq<Word>, ghost cfg: seq<Word>)
    requires sgoutd[..] == table && TableWords(size) <= |table|
    requires FramesInside(table, TableWords(size), outd.Length)
    requires inLocal[..] == cfg && |cfg| == C.IN_SIZE && sgoutdLocal.Length == C.SGREADCLUMP
    requires outd != sgoutd && outd != inLocal && outd != sgoutdLocal
    requires sgoutdLocal != sgoutd && sgoutdLocal != inLocal
    modifies outd, sgoutdLocal
    ensures forall p :: 0 <= p < outd.Length ==>
      outd[p] == WritesAt(old(outd[..]), table, cfg, 0, C.SGVECTORSIZE * TableWords(size), p)
  {
    ghost var od := outd[..];
    var sizeIn16 := Sections(size);
    var i := 0;
    ghost var n := 0;
    while i < sizeIn16 * C.SGVECTORSIZE
      invariant 0 <= i <= TableWords(size) && i % C.SGREADCLUMP == 0 && n == C.SGVECTORSIZE * i
      invariant forall p :: 0 <= p < outd.Length ==> outd[p] == WritesAt(od, table, cfg, 0, n, p)
      decreases sizeIn16 * C.SGVECTORSIZE - i
    {
      SectionWithin(size, i);
      NextSection(i);
      ghost var mid := outd[..];
      WriteSection(sgoutd, outd, i, inLocal, sgoutdLocal, table, cfg, n);
      WritesCompose(od, mid, table, cfg, 0, n, n + C.SGREADCLUMP * C.SGVECTORSIZE);
      i := i + C.SGREADCLUMP;
      n := n + C.SGREADCLUMP * C.SGVECTORSIZE;
    }
    SectionLoopExit(size, i);
  }

  /** `in_rd`, corrected: `in_local[ia]` gets `in[descin + ia]`. */
  method ReadConfig(input: array<Word>, descin: U32, inLocal: array<Word>)
    requires descin + C.IN_SIZE <= input.Length && inLocal.Length == C.IN_SIZE
    requires inLocal != input
    modifies inLocal
    ensures inLocal[..] == InBlock(input[..], descin)
  {
    for ia := 0 to C.IN_SIZE
      invariant forall k :: 0 <= k < ia ==> inLocal[k] == input[descin + k]
    {
      inLocal[ia] := input[descin + ia];
    }
    assert inLocal[..] == InBlock(input[..], descin);
  }

  /** `outt_wr`, corrected: `outt[desct + iwt]` gets `in_local[iwt % IN_SIZE]`. */
  method WriteTrigger(outt: array<Word>, desct: U32, inLocal: array<Word>, outtLocal: array<Word>,
                      ghost cfg: seq<Word>)
    requires inLocal[..] == cfg && |cfg| == C.IN_SIZE && outtLocal.Length == C.TRIG_SIZE
    requires desct + C.TRIG_SIZE <= outt.Length
    requires outt != inLocal && outtLocal != inLocal && outtLocal != outt
    modifies outt, outtLocal
    ensures forall k :: 0 <= k < C.TRIG_SIZE ==> outt[desct + k] == cfg[k % C.IN_SIZE]
    ensures forall p :: 0 <= p < outt.Length && !(desct <= p < desct + C.TRIG_SIZE) ==>
      outt[p] == old(outt[p])
  {
    for iwt := 0 to C.TRIG_SIZE
      modifies outt, outtLocal
      invariant forall k :: 0 <= k < iwt ==> outt[desct + k] == cfg[k % C.IN_SIZE]
      invariant forall p :: 0 <= p < outt.Length && !(desct <= p < desct + iwt) ==> outt[p] == old(outt[p])
    {
      outtLocal[iwt] := inLocal[iwt % C.IN_SIZE];
      outt[desct + iwt] := outtLocal[iwt];
    }
  }

  /** `outt[p]` is one of the `TRIG_SIZE` trigger words written from `desct` on. */
  predicate TriggerSlot(desct: nat, p: nat)
  {
    desct <= p < desct + C.TRIG_SIZE
  }

  /** The corrected kernel. `outd` ends up as the frames of every descriptor of the whole
      sections, written in table order over its old contents; then `outt[desct + k]` gets
      configuration word `k % 16`. When `outd` and `outt` are one array the trigger
      words are written last and win; otherwise nothing else in `outt` changes. */
  method Vadd(sginoutt: array<Word>, sgoutd: array<Word>, input: array<Word>,
              outd: array<Word>, outt: array<Word>, size: Int32)
    requires sginoutt.Length >= 1
    requires sginoutt[0][0] + C.IN_SIZE <= input.Length
    requires sginoutt[0][1] + C.TRIG_SIZE <= outt.Length
    requires TableWords(size) <= sgoutd.Length
    requires FramesInside(sgoutd[..], TableWords(size), outd.Length)
    requires outd != sgoutd
    modifies outd, outt
    ensures forall p :: 0 <= p < outd.Length && !(outd == outt && TriggerSlot(old(sginoutt[0][1]), p)) ==>
      outd[p] == WritesAt(old(outd[..]), old(sgoutd[..]), InBlock(old(input[..]), old(sginoutt[0][0])),
                          0, C.SGVECTORSIZE * TableWords(size), p)
    ensures forall k :: 0 <= k < C.TRIG_SIZE ==>
      outt[old(sginoutt[0][1]) + k] == InBlock(old(input[..]), old(sginoutt[0][0]))[k % C.IN_SIZE]
    ensures forall p :: 0 <= p < outt.Length && !(old(sginoutt[0][1]) <= p < old(sginoutt[0][1]) + C.TRIG_SIZE) ==>
      outt[p] == if outt == outd then
        WritesAt(old(outd[..]), old(sgoutd[..]), InBlock(old(input[..]), old(sginoutt[0][0])),
                 0, C.SGVECTORSIZE * TableWords(size), p)
      else old(outt[p])
  {
    ghost var od := outd[..];
    ghost var table := sgoutd[..];
    ghost var inputs := input[..];
    var inLocal := new Word[C.IN_SIZE](_ => Zero());
    var sgoutdLocal := new Word[C.SGREADCLUMP](_ => Zero());
    var outtLocal := new Word[C.TRIG_SIZE](_ => Zero());

    var sginouttLocal := sginoutt[0];
    var descin := sginouttLocal[0];
    var desct := sginouttLocal[1];

    ReadConfig(input, descin, inLocal);
    ghost var cfg := inLocal[..];

    WriteSections(sgoutd, outd, size, inLocal, sgoutdLocal, table, cfg);
    WriteTrigger(outt, desct, inLocal, outtLocal, cfg);
    assert desct == old(sginoutt[0][1]) && cfg == InBlock(old(input[..]), old(sginoutt[0][0]));
  }

  // ---------------------------------------------------------------------------
  // The kernel as written

  /** How a run of the kernel as written ends: normally, or on the first access of
      `in_local` outside its `IN_SIZE` words, with the index used. */
  datatype Outcome =
    | Completed
    | InRdOverflow(index: nat)        // `in_local[descin + ia]` in `in_rd`
    | DataReadOverflow(index: nat)    // `in_local[iw ^ IN_SIZE]` in `dataw2_loop`
    | TriggerReadOverflow(index: nat) // `in_local[iwt & ((1 << IN_SIZE) - 1)]` in `outt_wr`

  /** Where the kernel as written goes out of bounds: in `in_rd` unless `descin` is 0;
      otherwise at the first read of `in_local` in the section loop if there is a whole
      section; otherwise in `outt_wr` at `iwt = 16`. */
  function FirstFault(descin: U32, size: Int32): (r: Outcome)
    ensures !r.Completed? && r.index >= C.IN_SIZE
  {
    if descin > 0 then InRdOverflow(if descin >= C.IN_SIZE then descin else C.IN_SIZE)
    else if Sections(size) > 0 then DataReadOverflow(C.IN_SIZE)
    else TriggerReadOverflow(C.IN_SIZE)
  }

  /** `iw ^ IN_SIZE` at `iw = 0` is 16, one past the end of `in_local`. */
  lemma FirstDataIndex()
    ensures BitXor(0, C.IN_SIZE) == C.IN_SIZE
  {
  }

  /** The store `tmpOut.range(DATATYPE_SIZE * (i + 1) - 1, i * DATATYPE_SIZE)` as written:
      its bit range depends on the section offset `i`, not on the lane `iv`. */
  function StoreRangeAsWritten(i: nat, iv: nat): (r: (nat, nat))
  {
    (C.DATATYPE_SIZE * (i + 1) - 1, i * C.DATATYPE_SIZE)
  }

  /** All 16 stores of `dataw2_loop` hit the same bits, and from the second section on
      (`i >= 16`) those bits lie above bit 511 of the 512-bit `tmpOut`. */
  lemma StoreRangeAsWrittenLeavesWord(i: nat, iv1: nat, iv2: nat)
    ensures StoreRangeAsWritten(i, iv1) == StoreRangeAsWritten(i, iv2)
    ensures i >= C.SGREADCLUMP ==> StoreRangeAsWritten(i, iv1).1 >= C.DATAWIDTH
  {
  }

  /** The store corrected to lane `iv`: lane `iv` of the word, inside it for `iv < 16`. */
  function StoreRange(iv: nat): (r: (nat, nat))
    requires iv < C.VECTOR_SIZE
    ensures r.0 < C.DATAWIDTH && r.1 <= r.0 && r.0 - r.1 + 1 == C.DATATYPE_SIZE
    ensures r.1 == C.DATATYPE_SIZE * iv
  {
    (C.DATATYPE_SIZE * (iv + 1) - 1, iv * C.DATATYPE_SIZE)
  }

  /** The kernel as written, up to its first out-of-bounds access of `in_local`:
      - `in_rd` stores `in[ia]` at `in_local[descin + ia]`, past the end for any
        `descin > 0`;
      - with `descin = 0` and at least one section, the first pass through the nested
        loops (`i = jc = jd = iw = iv = 0`) reads `in_local[0 ^ IN_SIZE]`, that is
        `in_local[16]`; nothing has been written to `outd` yet;
      - with no section, `outt_wr` copies `in_local[0 .. 15]` to `outt[desct ..]` and then
        reads `in_local[16 & 0xffff]`.
      So every run faults, and `outd` is never written. Only what the run reaches is
      asked of the caller: the `in` words copied, `sgoutd[0 .. 15]` when there is a
      section, and `outt[desct .. desct + 15]` when there is none. */
  method VaddAsWritten(sginoutt: array<Word>, sgoutd: array<Word>, input: array<Word>,
                       outd: array<Word>, outt: array<Word>, size: Int32) returns (outcome: Outcome)
    requires sginoutt.Length >= 1
    requires sginoutt[0][0] < C.IN_SIZE ==> C.IN_SIZE - sginoutt[0][0] <= input.Length
    requires sginoutt[0][0] == 0 && Sections(size) > 0 ==> C.SGREADCLUMP <= sgoutd.Length
    requires sginoutt[0][0] == 0 && Sections(size) <= 0 ==> sginoutt[0][1] + C.IN_SIZE <= outt.Length
    modifies outt
    ensures outcome == FirstFault(old(sginoutt[0][0]), size)
    ensures outd != outt ==> outd[..] == old(outd[..])
    ensures outcome.TriggerReadOverflow? ==>
      forall k :: 0 <= k < C.IN_SIZE ==> outt[old(sginoutt[0][1]) + k] == old(input[k])
    ensures forall p :: 0 <= p < outt.Length ==>
      (outcome.TriggerReadOverflow? && old(sginoutt[0][1]) <= p < old(sginoutt[0][1]) + C.IN_SIZE) ||
      outt[p] == old(outt[p])
  {
    var inLocal := new Word[C.IN_SIZE](_ => Zero());
    var sgoutdLocal := new Word[C.SGREADCLUMP](_ => Zero());
    var outtLocal := new Word[C.TRIG_SIZE](_ => Zero());
    var sizeIn16 := Sections(size);
    ghost var inputs := input[..];

    var sginouttLocal := sginoutt[0];
    var descin := sginouttLocal[0];
    var desct := sginouttLocal[1];

    var fault := InReadAsWritten(input, inLocal, descin);
    if fault > 0 {
      return InRdOverflow(fault);
    }

    SectionLoopEntry(size);
    if 0 < sizeIn16 * C.SGVECTORSIZE {
      // the first section: sgoutd_rd, then jc = jd = iw = iv = 0
      ReadSection(sgoutd, 0, sgoutdLocal);
      var iw := 0;
      var index := BitXor(iw, C.IN_SIZE);
      FirstDataIndex();
      return DataReadOverflow(index);
    }

    // outt_wr, as written: iterations 0 .. 15 read `in_local[iwt]`, iteration 16 reads
    // past its end
    ghost var copied := inLocal[..];
    assert forall k :: 0 <= k < C.IN_SIZE ==> copied[k] == inputs[k];
    TriggerCopyAsWritten(inLocal, outtLocal, outt, desct);
    assert inLocal[..] == copied;
    var index := C.IN_SIZE % 0x1_0000;
    return TriggerReadOverflow(index);
  }

  /** `in_rd` as written: `in[ia]` goes to `in_local[descin + ia]`, which is past the end
      at `ia = 0` when `descin >= 16` and at `ia = 16 - descin` when `0 < descin < 16`.
      Returns the index that overflows, or 0 when `descin` is 0 and all sixteen words
      are copied. */
  method InReadAsWritten(input: array<Word>, inLocal: array<Word>, descin: U32) returns (fault: nat)
    requires inLocal.Length == C.IN_SIZE && inLocal != input
    requires descin < C.IN_SIZE ==> C.IN_SIZE - descin <= input.Length
    modifies inLocal
    ensures fault == if descin == 0 then 0 else if descin >= C.IN_SIZE then descin else C.IN_SIZE
    ensures descin == 0 ==> forall k :: 0 <= k < C.IN_SIZE ==> inLocal[k] == input[k]
  {
    for ia := 0 to C.IN_SIZE
      modifies inLocal
      invariant ia == 0 || descin + ia <= C.IN_SIZE
      invariant forall k :: 0 <= k < ia ==> inLocal[descin + k] == input[k]
    {
      if descin + ia >= C.IN_SIZE {
        return descin + ia;
      }
      inLocal[descin + ia] := input[ia];
    }
    return 0;
  }

  /** The sixteen in-bounds iterations of `outt_wr` as written: `in_local[iwt & 0xffff]`,
      that is `in_local[iwt]`, goes to `outt[desct + iwt]`. */
  method TriggerCopyAsWritten(inLocal: array<Word>, outtLocal: array<Word>, outt: array<Word>, desct: nat)
    requires inLocal.Length == C.IN_SIZE && outtLocal.Length == C.TRIG_SIZE
    requires desct + C.IN_SIZE <= outt.Length
    requires outtLocal != outt && inLocal != outt && inLocal != outtLocal
    modifies outt, outtLocal
    ensures forall k :: 0 <= k < C.IN_SIZE ==> outt[desct + k] == inLocal[k]
    ensures forall p :: 0 <= p < outt.Length && !(desct <= p < desct + C.IN_SIZE) ==> outt[p] == old(outt[p])
  {
    for iwt := 0 to C.IN_SIZE
      modifies outt, outtLocal
      invariant forall k :: 0 <= k < iwt ==> outt[desct + k] == inLocal[k]
      invariant forall p :: 0 <= p < outt.Length && !(desct <= p < desct + iwt) ==> outt[p] == old(outt[p])
    {
      var index := iwt % 0x1_0000;  // iwt & ((1 << IN_SIZE) - 1)
      outtLocal[iwt] := inLocal[index];
      outt[desct + iwt] := outtLocal[iwt];
    }
  }
}
