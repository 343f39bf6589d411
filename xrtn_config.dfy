/** The sizing constants of the DUNE `xrtn` kernel (`kernelhost.h`). */
module XrtnConfig {
  import Words

  /** 512-bit words of configuration read from `in`; also the `in_local` buffer size. */
  const IN_SIZE: nat := 16
  /** Table words of `sgoutd` read per section. */
  const SGREADCLUMP: nat := 16
  const SGDESCWIDTH: nat := 32
  const SGDATAWIDTH: nat := 512
  /** Descriptors per table word: `SGDATAWIDTH / SGDESCWIDTH` (lemma `WordGeometry`). */
  const SGVECTORSIZE: nat := 16
  const JUMBOSIZEBYTES: nat := 7168
  const DATAWIDTH: nat := 512
  const DATATYPE_SIZE: nat := 32
  /** Lanes per data word: `DATAWIDTH / DATATYPE_SIZE`. */
  const VECTOR_SIZE: nat := 16
  /** 512-bit words of trigger-primitive output. */
  const TRIG_SIZE: nat := 128

  /** Bound of the `dataw1_loop` index `iw`: `8 * JUMBOSIZEBYTES / DATATYPE_SIZE`, the
      bits of a jumbo frame over the bits of a lane. */
  const FRAME_LANES: nat := 1792

  /** Words of one jumbo frame, `FRAME_LANES / VECTOR_SIZE`: the number of `dataw1_loop`
      iterations. */
  const FRAME_WORDS: nat := 112

  /** A table word holds 16 descriptors of 32 bits, as many as a data word holds lanes, and
      both word widths are the 512 bits of a `uint512_dt`. */
  lemma WordGeometry()
    ensures SGVECTORSIZE == SGDATAWIDTH / SGDESCWIDTH && VECTOR_SIZE == DATAWIDTH / DATATYPE_SIZE
    ensures DATAWIDTH == SGDATAWIDTH == Words.DATAWIDTH
    ensures DATATYPE_SIZE == SGDESCWIDTH == Words.DATATYPE_SIZE
    ensures VECTOR_SIZE == Words.VECTOR_SIZE
  {
  }

  /** A section holds 256 descriptors, so the usual 1024 frames take four sections; a
      frame is 112 words, and the `iw` loop steps through them 16 lanes at a time. */
  lemma SectionGeometry()
    ensures SGREADCLUMP * SGVECTORSIZE == 256
    ensures 1024 / (SGREADCLUMP * SGVECTORSIZE) == 4
    ensures FRAME_LANES == 8 * JUMBOSIZEBYTES / DATATYPE_SIZE
    ensures FRAME_WORDS == FRAME_LANES / VECTOR_SIZE
    ensures FRAME_WORDS * VECTOR_SIZE == FRAME_LANES
    ensures FRAME_WORDS * 64 == JUMBOSIZEBYTES
  {
  }

  /** `(1 << IN_SIZE) - 1`, the `outt_wr` mask, is sixteen one bits, not `IN_SIZE - 1`. */
  lemma InMask()
    ensures Words.Pow2(IN_SIZE) - 1 == 0xffff
    ensures Words.Pow2(IN_SIZE) - 1 >= IN_SIZE
  {
    assert Words.Pow2(8) == 0x100;
    Words.Pow2Add(8, 8);
  }
}
