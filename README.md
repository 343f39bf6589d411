# Vitis hostmem kernels, the DUNE `xrtn` kernel and the `net_xrta` driver in Dafny

This project models the data-moving core of the Vitis host-memory tutorials, with each
HLS kernel read as the sequential C++ program it is in C simulation:

- **08.5 `vadd`.** It adds two arrays of 512-bit words lane by lane, 16 lanes of 32 bits,
  in blocks of 128 words.
- **08.4 `vadd`.** A scatter-gather table of 64-bit descriptors names jumbo frames of 114
  words. Each frame is added to itself lane by lane.
- **08.3 `vadd`.** It reads the table as 512-bit words of eight 64-bit descriptors and ORs
  `val3 ^ j` into every lane of frame word `j`.
- **DUNE `xrtn` `vadd` and `kernelhost.h`.** It splits a 32/32-bit header, reads a block
  of configuration words, and unpacks 16 descriptors of 32 bits per table word, in
  sections of 16 words. It writes a strided 112-word jumbo frame per descriptor to `outd`
  and 128 trigger words to `outt`.
- **Aurora `strm_dump`.** It copies `byte_size / 32` beats of a 256-bit AXI stream into
  memory.
- **08.1 host program `host_hm.cpp`.** Its job bookkeeping:
  - the run counter and the `done`/`run` decision on `stop`;
  - the element-wise `verify_results` check;
  - the total of runs in `run_test`;
  - the `throw_if_error` message and the kernel instance names;
  - the `argc` check of `run`.
- **DPDK poll-mode driver `rte_eth_xrta.c`.**
  - per-port: queue setup, the rx/tx burst callbacks, statistics gathering and reset,
    start/stop/close and device info;
  - driver-wide: the `no_request_thread` argument and the `is_xrta_initialized`
    count kept by probe and remove.

**Representation.**
- A 512-bit word is `Words.Word`, its 16 lanes of 32 bits. Lane k is bits [32k, 32k+31],
  and a 64-bit range is two adjacent lanes (`Field64`).
- Bitwise OR and XOR are defined on naturals, one bit at a time.
- Kernels are methods over Dafny arrays, with the source's local buffers kept as arrays.
  Each kernel is proved against ghost functions that say what every output word becomes.
- The host job and the driver's port are classes whose methods update their fields.
  Pure string and counting logic is functions with lemmas.

## Model

| member | source | states |
|---|---|---|
| Words.LanesTileWord | Hardware_Acceleration/Feature_Tutorials/08.5-using-hostmem/reference-files/src/kernel.cpp:20-22 | 16 lanes of 32 bits make up exactly the 512-bit word |
| Words.Field64Halves | Hardware_Acceleration/Feature_Tutorials/08.3-using-hostmem/reference-files/src/kernel.cpp:99 | a 64-bit descriptor field splits back into its low and high 32-bit lanes, so bits [64k, 64k+63] are lanes 2k and 2k+1 |
| Words.Or32 | Hardware_Acceleration/Feature_Tutorials/08.3-using-hostmem/reference-files/src/kernel.cpp:118 | OR of two 32-bit lanes stays a 32-bit lane |
| Words.Xor32 | Hardware_Acceleration/Feature_Tutorials/08.3-using-hostmem/reference-files/src/kernel.cpp:112 | XOR of two 32-bit values stays a 32-bit value |
| Words.BitOpsBound | Hardware_Acceleration/Feature_Tutorials/08.3-using-hostmem/reference-files/src/kernel.cpp:112-118 | neither OR nor XOR sets a bit above the operands' width |
| Words.BitOrZero | Hardware_Acceleration/Feature_Tutorials/08.3-using-hostmem/reference-files/src/kernel.cpp:118 | OR with 0 leaves a lane unchanged |
| Words.BitOrIdempotent | Hardware_Acceleration/Feature_Tutorials/08.3-using-hostmem/reference-files/src/kernel.cpp:118 | ORing the same mask twice equals ORing it once |
| Words.BitOrKeeps | Hardware_Acceleration/Feature_Tutorials/08.3-using-hostmem/reference-files/src/kernel.cpp:118 | `a | (a | b) == a | b`: every bit set in `a` is set in `a | b` |
| Words.BitXorCancel | Hardware_Acceleration/Feature_Tutorials/08.3-using-hostmem/reference-files/src/kernel.cpp:112 | `a ^ (a ^ b) == b` |
| Words.CDiv | Hardware_Acceleration/Feature_Tutorials/08.5-using-hostmem/reference-files/src/kernel.cpp:72 | C `int` division truncates toward zero: for `a >= 0` the quotient r has `r*b <= a < (r+1)*b`, for `a < 0` it has `(r-1)*b < a <= r*b`, so it never rounds away from zero |
| LaneAdd.SumWordLanes | Hardware_Acceleration/Feature_Tutorials/08.5-using-hostmem/reference-files/src/kernel.cpp:87-93 | a result lane is the lane sum if it fits in 32 bits, else the sum less 2^32; no carry reaches the next lane |
| LaneAdd.SumWordCommutes | Hardware_Acceleration/Feature_Tutorials/08.5-using-hostmem/reference-files/src/kernel.cpp:91 | the lane-wise sum does not depend on operand order |
| LaneAdd.ParallelAdd | Hardware_Acceleration/Feature_Tutorials/08.5-using-hostmem/reference-files/src/kernel.cpp:83-93 | the unrolled loop builds exactly the lane-wise sum modulo 2^32 (33-bit `res` truncated on store) |
| VaddBlocks.ProcessedWordsIsRoundUp | Hardware_Acceleration/Feature_Tutorials/08.5-using-hostmem/reference-files/src/kernel.cpp:72-78 | the words processed are `size/16` rounded up to a whole 128-word block; none iff `size < 16` |
| VaddBlocks.BlockWithin | Hardware_Acceleration/Feature_Tutorials/08.5-using-hostmem/reference-files/src/kernel.cpp:74-77 | a block started below `size_in16` ends within the processed words |
| VaddBlocks.LoopExit | Hardware_Acceleration/Feature_Tutorials/08.5-using-hostmem/reference-files/src/kernel.cpp:74 | the block loop stops exactly at the processed word count |
| VaddBlocks.ProcessBlock | Hardware_Acceleration/Feature_Tutorials/08.5-using-hostmem/reference-files/src/kernel.cpp:76-99 | one block: `out[i+t]` becomes the lane sum of the old `in1[i+t]` and `in2[i+t]`; every other word of `out` keeps its value |
| VaddBlocks.Vadd | Hardware_Acceleration/Feature_Tutorials/08.5-using-hostmem/reference-files/src/kernel.cpp:60-101 | every processed `out[n]` is the lane sum of the old inputs at n; `out` beyond the processed words is unchanged; inputs may alias `out`; accesses are in bounds when the arrays hold the block-rounded length |
| VaddGather64.DoubleWordLanes | Hardware_Acceleration/Feature_Tutorials/08.4-using-hostmem/reference-files/src/kernel.cpp:74-86 | a result lane is twice the input lane modulo 2^32, and is even |
| VaddGather64.DescriptorsRead | Hardware_Acceleration/Feature_Tutorials/08.4-using-hostmem/reference-files/src/kernel.cpp:57-62 | some descriptor is read iff the group loop runs at least once |
| VaddGather64.DescriptorsReadIsRoundUp | Hardware_Acceleration/Feature_Tutorials/08.4-using-hostmem/reference-files/src/kernel.cpp:51-62 | the group loop reads `size` rounded up to whole groups of 1024 descriptors; nothing iff `size <= 0` |
| VaddGather64.GroupWithin | Hardware_Acceleration/Feature_Tutorials/08.4-using-hostmem/reference-files/src/kernel.cpp:57-61 | a group started below `size` ends within the descriptors read |
| VaddGather64.LoopExit | Hardware_Acceleration/Feature_Tutorials/08.4-using-hostmem/reference-files/src/kernel.cpp:57 | the group loop stops exactly at the rounded-up descriptor count |
| VaddGather64.ProcessFrame | Hardware_Acceleration/Feature_Tutorials/08.4-using-hostmem/reference-files/src/kernel.cpp:68-92 | each `out[n]` becomes `FrameStepAt` of the old `out` and `in1`: inside the 114-word window the doubled word `in1[jumbo + n - outBase]`, all 114 read before any write so this holds when `in1 == out` too; every other word unchanged |
| VaddGather64.FramesNext | Hardware_Acceleration/Feature_Tutorials/08.4-using-hostmem/reference-files/src/kernel.cpp:64-92 | a frame inside the source, written over the output the earlier frames left and reading the source as they left it, takes `FramesHold` one descriptor on |
| VaddGather64.FramesOutside | Hardware_Acceleration/Feature_Tutorials/08.4-using-hostmem/reference-files/src/kernel.cpp:90-92 | whatever the frames read, every word outside the output window keeps its old value |
| VaddGather64.FramesSeparate | Hardware_Acceleration/Feature_Tutorials/08.4-using-hostmem/reference-files/src/kernel.cpp:64-93 | with `in1` distinct from `out`, the window holds the doubled frame of the last descriptor, whatever the earlier ones named |
| VaddGather64.FramesInPlaceAgree | Hardware_Acceleration/Feature_Tutorials/08.4-using-hostmem/reference-files/src/kernel.cpp:64-93 | when no frame overlaps the output window, running with `in1 == out` gives the same output as reading a copy of the old `out` |
| VaddGather64.ProcessDescriptor | Hardware_Acceleration/Feature_Tutorials/08.4-using-hostmem/reference-files/src/kernel.cpp:64-92 | one pass of the inner `jsg` loop takes the output from the frames of the first `c` descriptors to those of the first `c + 1` |
| VaddGather64.ProcessGroup | Hardware_Acceleration/Feature_Tutorials/08.4-using-hostmem/reference-files/src/kernel.cpp:57-93 | one group, copied to `sg_local` first: the output goes from the frames of the first `isg` descriptors to those of the first `isg + 1024`; `in1` is untouched when it is not `out` |
| VaddGather64.ProcessGroups | Hardware_Acceleration/Feature_Tutorials/08.4-using-hostmem/reference-files/src/kernel.cpp:51-94 | the `sg_group` loop leaves `out` as the frames of all `DescriptorsRead(size)` descriptors over its old contents |
| VaddGather64.Vadd | Hardware_Acceleration/Feature_Tutorials/08.4-using-hostmem/reference-files/src/kernel.cpp:39-94 | `out` ends as the frames of every descriptor read, in order, over its old contents, each frame reading `in1` as it then stands, so `in1 == out` is covered; with distinct arrays the window holds the doubled frame of the last descriptor read; nothing outside the window changes, and nothing at all for `size <= 0` |
| VaddGather512.Geometry | Hardware_Acceleration/Feature_Tutorials/08.3-using-hostmem/reference-files/src/kernel.cpp:25-27 | 8 descriptors of 64 bits fill a 512-bit word, and the writes of one table word span 121 output words |
| VaddGather512.Val3IsPosition | Hardware_Acceleration/Feature_Tutorials/08.3-using-hostmem/reference-files/src/kernel.cpp:100 | `val3` lies in [0, 31] and equals the descriptor position `ksg` |
| VaddGather512.MaskSeed | Hardware_Acceleration/Feature_Tutorials/08.3-using-hostmem/reference-files/src/kernel.cpp:100 | `val3`, as the kernel computes it, is the descriptor position `ksg` |
| VaddGather512.MaskBelow128 | Hardware_Acceleration/Feature_Tutorials/08.3-using-hostmem/reference-files/src/kernel.cpp:112 | the mask `val3 ^ j` is below 128 |
| VaddGather512.MaskDeterminesIndex | Hardware_Acceleration/Feature_Tutorials/08.3-using-hostmem/reference-files/src/kernel.cpp:112 | within a frame, different words `j` get different masks |
| VaddGather512.OrWordIdempotent | Hardware_Acceleration/Feature_Tutorials/08.3-using-hostmem/reference-files/src/kernel.cpp:115-120 | applying the OR stage twice with one mask is applying it once |
| VaddGather512.OrWordKeepsInput | Hardware_Acceleration/Feature_Tutorials/08.3-using-hostmem/reference-files/src/kernel.cpp:115-120 | every bit set in an input lane stays set in the result lane |
| VaddGather512.OrWordZero | Hardware_Acceleration/Feature_Tutorials/08.3-using-hostmem/reference-files/src/kernel.cpp:115-120 | a zero mask leaves the word unchanged |
| VaddGather512.OrParallel | Hardware_Acceleration/Feature_Tutorials/08.3-using-hostmem/reference-files/src/kernel.cpp:109-121 | the unrolled loop builds the word whose every lane is the input lane OR `val2` |
| VaddGather512.WordsRead | Hardware_Acceleration/Feature_Tutorials/08.3-using-hostmem/reference-files/src/kernel.cpp:82-93 | table words are read in whole groups of 128, and some are read iff `size/8 > 0` |
| VaddGather512.WordsReadIsRoundUp | Hardware_Acceleration/Feature_Tutorials/08.3-using-hostmem/reference-files/src/kernel.cpp:82-93 | the group loop reads `size/8` words rounded up to whole groups of 128; nothing iff `size < 8` |
| VaddGather512.GroupWordsRoundUp | Hardware_Acceleration/Feature_Tutorials/08.3-using-hostmem/reference-files/src/kernel.cpp:88 | the groups read from `isg` on cover the `sgsize_in16 - isg` remaining table words in whole groups of 128, with less than one group to spare, and none when no word remains |
| VaddGather512.ProcessFrame | Hardware_Acceleration/Feature_Tutorials/08.3-using-hostmem/reference-files/src/kernel.cpp:103-126 | each `out[n]` becomes `FrameStepAt` of the old contents: for `ksg <= n < ksg + 114` the frame word `in1[jumbo + n - ksg]` with `val3 ^ (n - ksg)` ORed into each lane, all read before any write; every other word unchanged |
| VaddGather512.FramesNext | Hardware_Acceleration/Feature_Tutorials/08.3-using-hostmem/reference-files/src/kernel.cpp:98-126 | a frame inside the source, written over the output the earlier frames left and reading the source as they left it, takes `FramesHold` one descriptor on |
| VaddGather512.FramesOutside | Hardware_Acceleration/Feature_Tutorials/08.3-using-hostmem/reference-files/src/kernel.cpp:124-126 | no frame writes `out` from word 121 on, whatever the frames read |
| VaddGather512.FramesPrefix | Hardware_Acceleration/Feature_Tutorials/08.3-using-hostmem/reference-files/src/kernel.cpp:98-127 | with `in1` distinct from `out`, after the first k frames of a table word each `out[p]`, p < k, is the first word of frame p, and `out[k-1 .. k+112]` is the whole of frame k-1 |
| VaddGather512.FramesSeparate | Hardware_Acceleration/Feature_Tutorials/08.3-using-hostmem/reference-files/src/kernel.cpp:95-128 | with `in1` distinct from `out`, `out[0..120]` ends as the last table word leaves it, whatever the earlier table words held |
| VaddGather512.FramesInPlaceAgree | Hardware_Acceleration/Feature_Tutorials/08.3-using-hostmem/reference-files/src/kernel.cpp:103-126 | when every frame starts at or after word 121, running with `in1 == out` gives the same output as reading a copy of the old `out` |
| VaddGather512.ProcessDescriptor | Hardware_Acceleration/Feature_Tutorials/08.3-using-hostmem/reference-files/src/kernel.cpp:98-126 | one pass of the `ksg` loop takes the output from the frames before descriptor `ksg` of the table word to those after it |
| VaddGather512.ProcessTableWord | Hardware_Acceleration/Feature_Tutorials/08.3-using-hostmem/reference-files/src/kernel.cpp:96-127 | the eight descriptors of one table word take the output from the frames of the table words before it to those including it |
| VaddGather512.ProcessGroup | Hardware_Acceleration/Feature_Tutorials/08.3-using-hostmem/reference-files/src/kernel.cpp:88-128 | one group of 128 table words, copied to `sg_local` before any frame is written: the output goes from the frames of table words below `isg` to those below `isg + 128` |
| VaddGather512.ProcessGroups | Hardware_Acceleration/Feature_Tutorials/08.3-using-hostmem/reference-files/src/kernel.cpp:82-129 | the `sg_group` loop leaves `out` as the frames of all `WordsRead(size)` table words, each read before any write reaches it, so `sgin == out` is covered |
| VaddGather512.Vadd | Hardware_Acceleration/Feature_Tutorials/08.3-using-hostmem/reference-files/src/kernel.cpp:70-129 | `out` ends as the frames of every table word read, in order, over its old contents, each frame reading `in1` as it then stands, so `in1 == out` and `sgin == out` are covered; with `in1` distinct from `out`, `out[0..120]` ends as the last table word read leaves it; `out` from 121 on is untouched, and all of it for `size < 8` |
| XrtnConfig.WordGeometry | giles/VITIS/xrtn/reference-files/src/kernelhost.h:8-15 | SGVECTORSIZE = 512/32 = 16 = VECTOR_SIZE, and DATAWIDTH equals SGDATAWIDTH |
| XrtnConfig.SectionGeometry | giles/VITIS/xrtn/reference-files/src/kernelhost.h:4-15 | 256 descriptors per section, so 4 sections for 1024 frames; `8*JUMBOSIZEBYTES/DATATYPE_SIZE` = 1792 lanes = 112 words |
| XrtnConfig.InMask | giles/VITIS/xrtn/reference-files/src/kernelhost.h:2 | `(1<<IN_SIZE)-1` is 0xffff, which is not below IN_SIZE |
| XrtnKernel.TableWords | giles/VITIS/xrtn/reference-files/src/kernel.cpp:81-97 | the section loop reads a whole number of 16-word clumps, and some iff there is a whole section |
| XrtnKernel.FramesProcessed | giles/VITIS/xrtn/reference-files/src/kernel.cpp:81-94 | only whole sections of 256 frames are processed (4 sections for 1024); none for `size < 256` |
| XrtnKernel.SectionWithin | giles/VITIS/xrtn/reference-files/src/kernel.cpp:94-97 | a section started in the loop reads table words inside the table words read |
| XrtnKernel.SectionLoopExit | giles/VITIS/xrtn/reference-files/src/kernel.cpp:94 | the section loop stops exactly at the table word count |
| XrtnKernel.DescriptorNumber | giles/VITIS/xrtn/reference-files/src/kernel.cpp:100-102 | descriptor `16t + jd` is lane jd (bits [32jd, 32jd+31]) of table word t |
| XrtnKernel.InIndex | giles/VITIS/xrtn/reference-files/src/kernel.cpp:109 | the corrected `in_local` index is inside the 16-word buffer |
| XrtnKernel.InIndexAtFrameWord | giles/VITIS/xrtn/reference-files/src/kernel.cpp:104-109 | at every word index `iw` that `dataw1_loop` visits, a multiple of 16, the corrected index is 0, so every frame word is built from `in_local[0]` |
| XrtnKernel.WritesCompose | giles/VITIS/xrtn/reference-files/src/kernel.cpp:94-116 | writing descriptors `lo..mid-1` then `mid..hi-1` is writing `lo..hi-1`, in table order |
| XrtnKernel.WritesUntouched | giles/VITIS/xrtn/reference-files/src/kernel.cpp:104-112 | an `outd` word that no frame's stride-16 pattern covers keeps its value |
| XrtnKernel.WritesLast | giles/VITIS/xrtn/reference-files/src/kernel.cpp:100-112 | an `outd` word covered by several frames holds the word of the last descriptor that covers it |
| XrtnKernel.BuildFrameWord | giles/VITIS/xrtn/reference-files/src/kernel.cpp:105-111 | corrected `dataw2_loop`: every lane is the low 32 bits of `i + jc + in_local[...]` |
| XrtnKernel.FrameSlotStep | giles/VITIS/xrtn/reference-files/src/kernel.cpp:104-112 | the `outd` words written after one more `dataw1_loop` step are those written before it and `desc + iw` |
| XrtnKernel.WriteDescriptor | giles/VITIS/xrtn/reference-files/src/kernel.cpp:104-113 | `dataw1_loop` writes `outd[desc + 16m]` for m < 112 and nothing else |
| XrtnKernel.WriteTableWord | giles/VITIS/xrtn/reference-files/src/kernel.cpp:101-114 | the 16 descriptors of one table word are written in lane order |
| XrtnKernel.ReadSection | giles/VITIS/xrtn/reference-files/src/kernel.cpp:96-98 | `sgoutd_local[j]` gets `sgoutd[i+j]` for j < 16 |
| XrtnKernel.WriteSection | giles/VITIS/xrtn/reference-files/src/kernel.cpp:94-115 | one section writes its 256 descriptors' frames in table order |
| XrtnKernel.WriteSections | giles/VITIS/xrtn/reference-files/src/kernel.cpp:94-116 | the section loop writes the frames of all descriptors of the whole sections, in table order |
| XrtnKernel.ReadConfig | giles/VITIS/xrtn/reference-files/src/kernel.cpp:90-92 | corrected `in_rd`: `in_local` becomes `in[descin .. descin+15]` |
| XrtnKernel.WriteTrigger | giles/VITIS/xrtn/reference-files/src/kernel.cpp:118-121 | corrected `outt_wr`: `outt[desct+k]` gets configuration word `k % 16` for k < 128; the rest of `outt` is untouched |
| XrtnKernel.Vadd | giles/VITIS/xrtn/reference-files/src/kernel.cpp:63-123 | corrected kernel: `descin`/`desct` are lanes 0/1 (bits [0,31] and [32,63]) of `sginoutt[0]`; `outd` ends as the frames of every descriptor written in order over its old contents, except the trigger words when `outd` is `outt`; `outt[desct+k]` gets configuration word `k % 16` for k < 128; the rest of `outt` is unchanged, or holds those frames when `outt` is `outd` |
| XrtnKernel.FirstFault | giles/VITIS/xrtn/reference-files/src/kernel.cpp:90-121 | as written, every run accesses `in_local` at an index of at least 16 |
| XrtnKernel.FirstDataIndex | giles/VITIS/xrtn/reference-files/src/kernel.cpp:109 | `iw ^ IN_SIZE` at `iw = 0` is 16 |
| XrtnKernel.StoreRangeAsWrittenLeavesWord | giles/VITIS/xrtn/reference-files/src/kernel.cpp:110 | as written, all 16 lane stores hit the same bits, and for `i >= 16` those bits start at or above bit 512 |
| XrtnKernel.StoreRange | giles/VITIS/xrtn/reference-files/src/kernel.cpp:110 | the corrected store range is lane `iv`, 32 bits inside the 512-bit word |
| XrtnKernel.VaddAsWritten | giles/VITIS/xrtn/reference-files/src/kernel.cpp:63-123 | the kernel as written, run up to its first out-of-bounds `in_local` access: it stops with `FirstFault`, `outd` is never written, and `outt` changes only at `desct..desct+15`, only when there is no section |
| XrtnKernel.InReadAsWritten | giles/VITIS/xrtn/reference-files/src/kernel.cpp:90-92 | `in_rd` as written overflows at index `descin` when `descin >= 16` and at 16 when `0 < descin < 16`; only for `descin = 0` does it copy `in[0..15]` into `in_local` |
| XrtnKernel.TriggerCopyAsWritten | giles/VITIS/xrtn/reference-files/src/kernel.cpp:118-121 | the 16 in-bounds iterations of `outt_wr` as written copy `in_local[0..15]` to `outt[desct..desct+15]` and change nothing else in `outt` |
| StrmDump.PortWidths | Hardware_Acceleration/Design_Tutorials/08-alveo_aurora_kernel/hls/strm_dump.cpp:24-25 | the byte width is the bit width over 8 |
| StrmDump.ItemCount | Hardware_Acceleration/Design_Tutorials/08-alveo_aurora_kernel/hls/strm_dump.cpp:35 | the loop count is `byte_size/32`, rounded down; zero iff `byte_size < 32` |
| StrmDump.Stream.Read | Hardware_Acceleration/Design_Tutorials/08-alveo_aurora_kernel/hls/strm_dump.cpp:39 | `read()` returns the oldest beat and removes it |
| StrmDump.Dump | Hardware_Acceleration/Design_Tutorials/08-alveo_aurora_kernel/hls/strm_dump.cpp:31-42 | `data_output[i]` is the data of the i-th beat for i < `byte_size/32`, in FIFO order; exactly that many beats are consumed; the output beyond is unchanged |
| HostText.Digits | Hardware_Acceleration/Feature_Tutorials/08.1-using-hostmem/reference-files/src/host_hm.cpp:51 | decimal digits, non-empty, with no leading zero |
| HostText.DigitsRoundTrip | Hardware_Acceleration/Feature_Tutorials/08.1-using-hostmem/reference-files/src/host_hm.cpp:51 | reading the digits back gives the number |
| HostText.IntToString | Hardware_Acceleration/Feature_Tutorials/08.1-using-hostmem/reference-files/src/host_hm.cpp:51 | `to_string` is non-empty and contains no quote |
| HostText.IntToStringRoundTrip | Hardware_Acceleration/Feature_Tutorials/08.1-using-hostmem/reference-files/src/host_hm.cpp:51 | `to_string` of an int reads back as that int |
| HostText.ThrowIfError | Hardware_Acceleration/Feature_Tutorials/08.1-using-hostmem/reference-files/src/host_hm.cpp:45-55 | returns iff errcode is 0; otherwise the message `errcode '<n>'`, followed by ` <msg>` when msg is given, parses back to exactly (errcode, msg) |
| HostText.ErrorMessageParses | Hardware_Acceleration/Feature_Tutorials/08.1-using-hostmem/reference-files/src/host_hm.cpp:50-53 | the message layout is unambiguous: it parses back to its code and text |
| HostText.NoDevicesMessage | Hardware_Acceleration/Feature_Tutorials/08.1-using-hostmem/reference-files/src/host_hm.cpp:264 | with no device the message is `errcode '1' no devices` |
| HostText.CheckArgs | Hardware_Acceleration/Feature_Tutorials/08.1-using-hostmem/reference-files/src/host_hm.cpp:250-251 | `argc < 2` raises `usage: host.exe <xclbin>`; otherwise `run` goes on |
| HostText.KernelNamesNumbered | Hardware_Acceleration/Feature_Tutorials/08.1-using-hostmem/reference-files/src/host_hm.cpp:30-43 | there are 14 names, and name j is `vadd:{vadd_<j+1>}` |
| HostText.KernelNamesDistinct | Hardware_Acceleration/Feature_Tutorials/08.1-using-hostmem/reference-files/src/host_hm.cpp:30-43 | the 14 kernel names are pairwise distinct |
| HostJobs.Unsigned | Hardware_Acceleration/Feature_Tutorials/08.1-using-hostmem/reference-files/src/host_hm.cpp:77-79 | the bits of an int, read as a 32-bit lane, are congruent to it modulo 2^32 |
| HostJobs.Signed | Hardware_Acceleration/Feature_Tutorials/08.1-using-hostmem/reference-files/src/host_hm.cpp:77-79 | reading a lane as an int and back gives the lane |
| HostJobs.WrapAdd | Hardware_Acceleration/Feature_Tutorials/08.1-using-hostmem/reference-files/src/host_hm.cpp:186 | the host's sum is congruent to the true sum modulo 2^32, and equal to it when it fits in an int |
| HostJobs.HostCheckMatchesKernel | Hardware_Acceleration/Feature_Tutorials/08.1-using-hostmem/reference-files/src/host_hm.cpp:186 | the value the host expects is the 08.5 kernel's lane sum, read as an int |
| HostJobs.Resize | Hardware_Acceleration/Feature_Tutorials/08.1-using-hostmem/reference-files/src/host_hm.cpp:90 | `resize(n)` gives n elements and keeps the existing prefix |
| HostJobs.Iota | Hardware_Acceleration/Feature_Tutorials/08.1-using-hostmem/reference-files/src/host_hm.cpp:91 | `iota` keeps the length and numbers the elements from `start` |
| HostJobs.InputAsWritten | Hardware_Acceleration/Feature_Tutorials/08.1-using-hostmem/reference-files/src/host_hm.cpp:90-91 | `reserve` followed by `iota` leaves `input` empty |
| HostJobs.InputCorrected | Hardware_Acceleration/Feature_Tutorials/08.1-using-hostmem/reference-files/src/host_hm.cpp:90-91 | with `resize`, `input` is `0 .. nelements-1` |
| HostJobs.InputAsWrittenIsEmpty | Hardware_Acceleration/Feature_Tutorials/08.1-using-hostmem/reference-files/src/host_hm.cpp:90-117 | for the 1024*512 elements of `run`, the vector `memcpy` reads from is empty |
| HostJobs.Job.constructor | Hardware_Acceleration/Feature_Tutorials/08.1-using-hostmem/reference-files/src/host_hm.cpp:86-125 | `runs` starts at 0; the job is bound to its kernel name; both mapped inputs hold the (corrected) input |
| HostJobs.Job.Run | Hardware_Acceleration/Feature_Tutorials/08.1-using-hostmem/reference-files/src/host_hm.cpp:155-158 | `run()` increases `runs` by exactly 1 |
| HostJobs.Job.Done | Hardware_Acceleration/Feature_Tutorials/08.1-using-hostmem/reference-files/src/host_hm.cpp:148-153 | `done()` runs again iff `stop` is false; once `stop` is set `runs` does not change |
| HostJobs.Job.VerifyResults | Hardware_Acceleration/Feature_Tutorials/08.1-using-hostmem/reference-files/src/host_hm.cpp:181-191 | passes iff `io[k] == in1[k] + in2[k]` for every k < nelements; otherwise fails at the first mismatching k, with the value got and the value expected |
| HostJobs.TotalRunsSplit | Hardware_Acceleration/Feature_Tutorials/08.1-using-hostmem/reference-files/src/host_hm.cpp:227-231 | the total of runs is one per job plus the callbacks counted per job |
| HostJobs.CountSumSnoc | Hardware_Acceleration/Feature_Tutorials/08.1-using-hostmem/reference-files/src/host_hm.cpp:195-200 | one more callback adds one to the per-job callback sum |
| HostJobs.CountsAddUp | Hardware_Acceleration/Feature_Tutorials/08.1-using-hostmem/reference-files/src/host_hm.cpp:195-200 | every callback belongs to exactly one job |
| HostJobs.CountSumNone | Hardware_Acceleration/Feature_Tutorials/08.1-using-hostmem/reference-files/src/host_hm.cpp:195-200 | with no callbacks the per-job callback sum is zero |
| HostJobs.TotalRunsCountsCallbacks | Hardware_Acceleration/Feature_Tutorials/08.1-using-hostmem/reference-files/src/host_hm.cpp:227-231 | the total is 14 first runs plus one per callback that fired before `stop` |
| HostJobs.RunTest | Hardware_Acceleration/Feature_Tutorials/08.1-using-hostmem/reference-files/src/host_hm.cpp:202-245 | job j is bound to `kernel_names_[j]` and has run once plus once per early callback; the total is the sum of the jobs' `runs`, which is 14 + the number of early callbacks |
| XrtaPort.QueueBudget | giles/DPDK/drivers/net/xrta/rte_eth_xrta.c:17-18 | the maximum queue count is NKERN*3 = 42 |
| XrtaPort.DeviceInfo | giles/DPDK/drivers/net/xrta/rte_eth_xrta.c:278-289 | `dev_info` reports 42 rx and tx queues, 1 MAC address, UINT32_MAX packet length and 0 minimum buffer size |
| XrtaPort.NumStats | giles/DPDK/drivers/net/xrta/rte_eth_xrta.c:349-350 | the number of queues reported is the minimum of 16 and `nb_queues` |
| XrtaPort.SumStep | giles/DPDK/drivers/net/xrta/rte_eth_xrta.c:355-356 | adding each counter into a 64-bit total gives the exact sum modulo 2^64 |
| XrtaPort.SumOfZeros | giles/DPDK/drivers/net/xrta/rte_eth_xrta.c:385-394 | zeroed counters add up to zero |
| XrtaPort.Port.constructor | giles/DPDK/drivers/net/xrta/rte_eth_xrta.c:426-445 | a created port has 42 rx and tx queues, link down, a MAC address, promiscuous and all-multicast on, zeroed queue records, and the parsed `no_request_thread` |
| XrtaPort.Port.DevStart | giles/DPDK/drivers/net/xrta/rte_eth_xrta.c:207-226 | returns 0 with `is_xrta_started` 1 and link up, from any state, and changes nothing else |
| XrtaPort.Port.DevStop | giles/DPDK/drivers/net/xrta/rte_eth_xrta.c:231-244 | returns 0 with link down and `dev_started` 0; changes nothing else |
| XrtaPort.Port.Close | giles/DPDK/drivers/net/xrta/rte_eth_xrta.c:247-268 | returns 0; does nothing in a secondary process; in the primary it stops the port and clears `mac_addrs`; promiscuous and all-multicast modes, queue counts and `is_xrta_started` never change |
| XrtaPort.Port.RxQueueSetup | giles/DPDK/drivers/net/xrta/rte_eth_xrta.c:292-310 | only rx queue k changes: it gets `internals` and `mb_pool`, and `data->rx_queues[k]` is set |
| XrtaPort.Port.TxQueueSetup | giles/DPDK/drivers/net/xrta/rte_eth_xrta.c:313-329 | only tx queue k changes: it gets `internals`, and `data->tx_queues[k]` is set |
| XrtaPort.Port.Rx | giles/DPDK/drivers/net/xrta/rte_eth_xrta.c:116-135 | returns 0 in every case and leaves every queue's counters unchanged |
| XrtaPort.Port.Tx | giles/DPDK/drivers/net/xrta/rte_eth_xrta.c:137-160 | frees the `nb_bufs` buffers in order unless `q` or `bufs` is NULL, returns 0, and leaves the counters unchanged |
| XrtaPort.Port.StatsGet | giles/DPDK/drivers/net/xrta/rte_eth_xrta.c:340-375 | slots below `min(16, nb_queues)` copy each queue's counters, the totals are their sums modulo 2^64, and the other slots are kept; rx and tx alike |
| XrtaPort.Port.GatherRx | giles/DPDK/drivers/net/xrta/rte_eth_xrta.c:349-357 | the rx loop copies the counters of the first `num_stats` queues and sums them |
| XrtaPort.Port.GatherTx | giles/DPDK/drivers/net/xrta/rte_eth_xrta.c:359-367 | the tx loop copies the counters of the first `num_stats` queues and sums them |
| XrtaPort.Port.StatsReset | giles/DPDK/drivers/net/xrta/rte_eth_xrta.c:378-397 | the rx counters of the first `nb_rx_queues` queues and the tx counters of the first `nb_tx_queues` become 0; nothing else changes |
| XrtaPort.Port.ResetRx | giles/DPDK/drivers/net/xrta/rte_eth_xrta.c:385-389 | the rx reset loop zeroes exactly the first `nb_rx_queues` rx counters |
| XrtaPort.Port.ResetTx | giles/DPDK/drivers/net/xrta/rte_eth_xrta.c:390-394 | the tx reset loop zeroes exactly the first `nb_tx_queues` tx counters |
| XrtaPort.ResetThenGet | giles/DPDK/drivers/net/xrta/rte_eth_xrta.c:385-394 | a `stats_get` after `stats_reset` reports zero totals and zero in every slot it fills |
| XrtaDriver.CountKeyNone | giles/DPDK/drivers/net/xrta/rte_eth_xrta.c:479 | a key counts 0 iff no pair has it |
| XrtaDriver.CountKeyOnce | giles/DPDK/drivers/net/xrta/rte_eth_xrta.c:479 | a key counts 1 iff exactly one pair has it |
| XrtaDriver.KvargsProcess | giles/DPDK/drivers/net/xrta/rte_eth_xrta.c:468-485 | -1 with the args untouched when parsing fails; otherwise 0, with `no_request_thread` 1 iff the key occurs exactly once and 0 otherwise |
| XrtaDriver.Driver.constructor | giles/DPDK/drivers/net/xrta/rte_eth_xrta.c:108 | the count starts at 0 |
| XrtaDriver.Driver.XrtaInit | giles/DPDK/drivers/net/xrta/rte_eth_xrta.c:451-465 | returns 0 and increments `is_xrta_initialized` |
| XrtaDriver.Driver.Probe | giles/DPDK/drivers/net/xrta/rte_eth_xrta.c:488-541 | secondary: 0 iff attach succeeds, count unchanged. Primary: 0 iff args parse and a port is allocated; success counts one more port and yields a fresh valid port with the parsed argument; failure leaves the count unchanged |
| XrtaDriver.Driver.Remove | giles/DPDK/drivers/net/xrta/rte_eth_xrta.c:544-573 | secondary with a port: stop, release, count unchanged. Otherwise: close when a port exists, decrement the count, return 0. The port's queue counts, modes, `is_xrta_started` and argument stay as they were, and so does its MAC pointer in a secondary |
| XrtaDriver.ProbeThenRemove | giles/DPDK/drivers/net/xrta/rte_eth_xrta.c:535-567 | a primary probe followed, on success, by remove restores `is_xrta_initialized`; the probe succeeds iff args parse and a port is allocated |

## Left out

- The OpenCL/XRT calls of `host_hm.cpp` are foreign calls and are not modelled. They cover context, queue, kernel and buffer creation, mapping, migration, `clEnqueueTask`, `clFinish`, and reading the xclbin file.
- The asynchronous completion callbacks and the 20-second `sleep_for` are concurrency. They become the `early` and `late` sequences of `HostJobs.RunTest`, the callbacks fired before and after `stop` is set.
- The GB/s and MB figures of `run_test` and `run` are floating point and printing; `std::cout` output is left out too.
- The argument wiring of `clSetKernelArg` is not modelled. `HostJobs.HostCheckMatchesKernel` connects the host check to the 08.5 lane sum instead.
- HLS `#pragma` directives are synthesis hints with no sequential meaning, so they are left out.
- `hls::stream` blocking is not modelled. `StrmDump.Stream.Read` requires a beat to be present, and `StrmDump.Dump` requires enough beats.
- The DPDK framework is foreign and left out:
  - `RTE_PMD_REGISTER_*`, `rte_eth_vdev_allocate`, `rte_eth_dev_attach_secondary` and `rte_eth_dev_release_port`;
  - `rte_eth_random_addr`, logging, and the internals of `rte_kvargs_parse`.
  - Their outcomes are the parameters `attachOk`, `allocOk`, `kvlist` and `releaseRet`.
- The `#if 0` KNI block (`kni_handle_request`, `eth_kni_start`) is dead code.
- The cross-thread race on `is_xrta_initialized` is concurrency.
- `eth_xrta_dev_configure` and `eth_xrta_link_update` only return 0, so they are not modelled.
- `XrtaPort.Port.Rx`: the `void *q` pointer is modelled as a queue record index (`None` for NULL), and the mbufs are not modelled.
- `XrtaPort.Port.Tx`: buffer freeing is modelled as the list of buffers freed, in order.
- `XrtaPort.Port.StatsGet`: requires the reported queues to have been set up. Otherwise the source dereferences a NULL `data->rx_queues[i]`.
- `XrtaPort.Port.StatsReset` has the same requirement.
- `RTE_ETHDEV_QUEUE_STAT_CNTRS` is not defined in this repository. It is taken as 16, DPDK's default build value.
- `unsigned long` is taken as 64 bits.
- `XrtaDriver.Driver.Remove`: modelled as written. It decrements the count even when no port is found.
- `HostJobs.Job.constructor`: the initial contents of the device-written `io` buffer are unspecified; the model starts them at 0.
- `HostJobs.Job.constructor` uses the corrected input (see Findings).
- `HostJobs.Job.Run`: `++runs` on an `int` is not bounded. Overflow only happens after 2^31 runs.
- `HostJobs.WrapAdd`: models `in1[k] + in2[k]` as two's-complement wrap-around. The C++ overflow is undefined behaviour.
- `VaddGather64.Vadd`: the output base `i` at line 91 is not declared in the function. The model takes it as the explicit parameter `outBase`.
- `VaddGather64.Vadd` and `VaddGather512.Vadd`: the loop counters are unbounded integers. In C, `isg += SGBUFFER_SIZE` overflows a 32-bit `int` when `size` is within one group of 2^31 - 1, and `(isg + jsg) * SGDESC_SIZE` in `val3` overflows for tables of more than 2^25 words. The model does not capture those overflows, which are undefined behaviour in C. It reads `val3` as the low five bits of the exact product, which a two's-complement wrap-around would leave the same.
- `VaddGather64.FramesAt` and `VaddGather512.FramesAt`: a frame that lies outside the source leaves the output unchanged. This is filler so the functions need no precondition; `Vadd` requires every frame it reads to lie inside `in1`, so the filler is never reached.
- `VaddGather64.Vadd` and `VaddGather512.Vadd` allow `in1` to be `out`, and `VaddGather512.Vadd` allows `sgin` to be `out` as well. Overlapping arrays that are not the same array are not modelled, since Dafny arrays either are one array or are disjoint.
- `VaddGather512.Vadd`: follows the code, not the header comment. The comment says the output block starts at the first table value; the code writes `out[ksg + j]`.
- `XrtnKernel.Vadd`: requires `outd` and `sgoutd` to be distinct arrays. If they were one array, frames written to `outd` could change table words that later sections read, and the model does not follow that. Every other pair of arguments may be the same array.
- `XrtnKernel.Vadd`: a comment says `descin`/`desct` are 64-bit fields; the code takes 32-bit fields, and the model follows the code.
- `XrtnKernel.Vadd`: models the kernel with the four out-of-bounds index expressions corrected (see Findings). Which fix was intended at lines 109 and 119 is a guess.
- `XrtnKernel.FrameWord`: `res` depends only on lane 0 of the `in_local` word, as the 32-bit store keeps only the low bits of the 512-bit sum.
- `XrtnKernel.VaddAsWritten`: modelled only up to the first out-of-bounds access. What the hardware does after it is not defined.

## Findings

| source | as written | input that shows it | evidently intended | confidence | as-written member | corrected member |
|---|---|---|---|---|---|---|
| giles/VITIS/xrtn/reference-files/src/kernel.cpp:91 | `in_local[descin + ia] = in[ia]` writes past the 16-word `in_local` for any `descin > 0` | `descin = 1` in lane 0 of `sginoutt[0]` | `in_local[ia] = in[descin + ia]`, reading the configuration block at `descin` | medium, not executed | XrtnKernel.VaddAsWritten | XrtnKernel.ReadConfig |
| giles/VITIS/xrtn/reference-files/src/kernel.cpp:109 | `in_local[iw ^ IN_SIZE]` reads index 16 at `iw = 0` | `descin = 0`, `size = 256` | an index inside `in_local`, taken as `(iw ^ IN_SIZE) % IN_SIZE`; since `iw` steps by 16, that index is always 0, so every frame word is `t + in_local[0][0]` | low, not executed | XrtnKernel.FirstDataIndex | XrtnKernel.InIndexAtFrameWord |
| giles/VITIS/xrtn/reference-files/src/kernel.cpp:110 | the lane range uses the section offset `i`, not `iv`, so all 16 stores hit one lane, beyond bit 511 for `i >= 16` | `size = 512`, second section `i = 16` | `tmpOut.range(DATATYPE_SIZE*(iv+1)-1, iv*DATATYPE_SIZE)` | high, not executed | XrtnKernel.StoreRangeAsWrittenLeavesWord | XrtnKernel.StoreRange |
| giles/VITIS/xrtn/reference-files/src/kernel.cpp:119 | `iwt & ((1<<IN_SIZE)-1)` is `iwt & 0xffff`, which reads `in_local[16]` at `iwt = 16` | `descin = 0`, `size = 0` | `iwt & (IN_SIZE-1)`, that is `iwt % IN_SIZE` | medium, not executed | XrtnKernel.FirstFault | XrtnKernel.WriteTrigger |
| Hardware_Acceleration/Feature_Tutorials/08.1-using-hostmem/reference-files/src/host_hm.cpp:90-91 | `reserve` then `iota(begin, end)` leaves `input` empty, and `memcpy` then reads `bytes` past it | `nelements = 1024*512` | `input.resize(nelements)`, giving `0 .. nelements-1` | high, not executed | HostJobs.InputAsWritten | HostJobs.InputCorrected |
