/** `longToSlice`: a `long long` written into a caller-owned buffer and viewed as a slice. */
module Util {
  import opened ByteCodec

  /** A `rocksdb::Slice`: a view of `size` bytes of some buffer. */
  datatype Slice = Slice(data: ByteString, size: nat)

  /** The caller's buffer after the call, and the slice returned over it. */
  datatype BufferAndSlice = BufferAndSlice(buffer: ByteString, slice: Slice)

  /**
   * `longToSlice(value, buf)`: the buffer is resized to 8 bytes and overwritten
   * with the native image of `value`; the slice views the whole buffer.  The
   * buffer's previous length and contents play no part in the result.
   */
  function LongToSlice(value: Int64, buf: ByteString): (r: BufferAndSlice)
    ensures |r.buffer| == 8
    ensures r.slice.data == r.buffer && r.slice.size == |r.buffer|
    ensures DecodeInt64(r.slice.data) == value
  {
    var image := EncodeInt64(value);
    BufferAndSlice(image, Slice(image, |image|))
  }

  /** Two calls with the same value give the same buffer whatever the buffers held before. */
  lemma LongToSliceIgnoresOldBuffer(value: Int64, buf1: ByteString, buf2: ByteString)
    ensures LongToSlice(value, buf1) == LongToSlice(value, buf2)
  {
  }
}
