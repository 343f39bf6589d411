/** The `strm_dump` kernel of the Aurora design: it moves `byte_size / 32` beats of a
    256-bit AXI stream, in arrival order, into consecutive words of `data_output`. */
module StrmDump {

  /** AXI port data width, in bits and in bytes. */
  const PTR_WIDTH: nat := 256
  const PTR_BYTE_WIDTH: nat := 32

  /** An `ap_uint<256>` value. */
  type Data256 = x: nat | x < 0x1_0000_0000_0000_0000_0000_0000_0000_0000_0000_0000_0000_0000_0000_0000_0000_0000

  /** One beat `ap_axiu<256, 0, 0, 0>` of the stream: its data and its side-band
      signals, of which the kernel keeps only the data. */
  datatype Beat = Beat(data: Data256, keep: nat, strb: nat, last: bool)

  /** The byte width is the bit width over eight. */
  lemma PortWidths()
    ensures PTR_BYTE_WIDTH * 8 == PTR_WIDTH
  {
  }

  /** `byte_size / PTR_BYTE_WIDTH`, the number of loop iterations: the number of whole
      256-bit words in `byte_size` bytes, a trailing partial word being dropped. */
  function ItemCount(byteSize: nat): (r: nat)
    ensures r * PTR_BYTE_WIDTH <= byteSize < r * PTR_BYTE_WIDTH + PTR_BYTE_WIDTH
    ensures r == 0 <==> byteSize < PTR_BYTE_WIDTH
  {
    byteSize / PTR_BYTE_WIDTH
  }

  /** An `hls::stream`, seen as the FIFO of beats not yet read. */
  class Stream {
    var contents: seq<Beat>

    constructor(beats: seq<Beat>)
      ensures contents == beats
    {
      contents := beats;
    }

    /** `read()`: removes and returns the oldest beat. A read of an empty stream blocks
        until a beat arrives, so the model asks for one to be there. */
    method Read() returns (b: Beat)
      requires |contents| > 0
      modifies this
      ensures b == old(contents[0]) && contents == old(contents[1..])
    {
      b := contents[0];
      contents := contents[1..];
    }
  }

  /** `strm_dump(data_input, data_output, byte_size)`: word i of the output receives the
      data of the i-th beat read, for every i below `ItemCount(byteSize)`; exactly that
      many beats leave the stream, and the output beyond them keeps its contents. */
  method Dump(dataInput: Stream, dataOutput: array<Data256>, byteSize: nat)
    requires byteSize < 0x1_0000_0000
    requires ItemCount(byteSize) <= |dataInput.contents|
    requires ItemCount(byteSize) <= dataOutput.Length
    modifies dataInput, dataOutput
    ensures forall i :: 0 <= i < ItemCount(byteSize) ==> dataOutput[i] == old(dataInput.contents[i]).data
    ensures forall i :: ItemCount(byteSize) <= i < dataOutput.Length ==> dataOutput[i] == old(dataOutput[i])
    ensures dataInput.contents == old(dataInput.contents)[ItemCount(byteSize)..]
  {
    ghost var beats := dataInput.contents;
    var i := 0;
    while i < byteSize / PTR_BYTE_WIDTH
      invariant 0 <= i <= ItemCount(byteSize)
      invariant dataInput.contents == beats[i..]
      invariant forall t :: 0 <= t < i ==> dataOutput[t] == beats[t].data
      invariant forall t :: i <= t < dataOutput.Length ==> dataOutput[t] == old(dataOutput[t])
      decreases ItemCount(byteSize) - i
    {
      var temp := dataInput.Read();
      dataOutput[i] := temp.data;
      i := i + 1;
    }
  }
}
