/**
 * The part of the GPU the simulation relies on, seen as values: a storage
 * buffer is the sequence of 32-bit words it holds, a compute dispatch is its
 * workgroup grid, and `copy_buffer_to_buffer` is a function from the two
 * buffers' contents to the destination's new contents.
 */
module Gpu {
  import opened Rust

  /** wgpu's COPY_BUFFER_ALIGNMENT: copy offsets and sizes are multiples of 4 bytes. */
  const COPY_BUFFER_ALIGNMENT: nat := 4

  /** The arguments of `dispatch_workgroups(x, y, z)`. */
  datatype Dispatch = Dispatch(x: u32, y: u32, z: u32) {
    /** How many workgroups the dispatch launches. */
    function Workgroups(): nat {
      x as nat * y as nat * z as nat
    }
  }

  /** The contents of a buffer made by `create_buffer` with `size` bytes: wgpu zero-initialises it. */
  function Zeroed(size: nat): (words: seq<u32>)
    requires size % WORD_BYTES == 0
    ensures |words| * WORD_BYTES == size
    ensures forall i :: 0 <= i < |words| ==> words[i] == 0
  {
    seq(size / WORD_BYTES, _ => 0)
  }

  /** The checks wgpu makes of a `copy_buffer_to_buffer` command: aligned offsets and size, both ranges inside their buffers. */
  predicate CopyIsValid(source: seq<u32>, sourceOffset: nat, destination: seq<u32>, destinationOffset: nat, size: nat)
  {
    && sourceOffset % COPY_BUFFER_ALIGNMENT == 0
    && destinationOffset % COPY_BUFFER_ALIGNMENT == 0
    && size % COPY_BUFFER_ALIGNMENT == 0
    && sourceOffset + size <= |source| * WORD_BYTES
    && destinationOffset + size <= |destination| * WORD_BYTES
  }

  /**
   * The destination's contents after `copy_buffer_to_buffer(source, sourceOffset,
   * destination, destinationOffset, size)`: the `size` bytes at `destinationOffset`
   * are those at `sourceOffset` in the source, every other byte is untouched.
   */
  function CopyBufferToBuffer(source: seq<u32>, sourceOffset: nat, destination: seq<u32>, destinationOffset: nat, size: nat): (r: seq<u32>)
    requires CopyIsValid(source, sourceOffset, destination, destinationOffset, size)
    ensures |r| == |destination|
    ensures forall i :: 0 <= i < |r| ==>
      r[i] == if destinationOffset <= i * WORD_BYTES < destinationOffset + size
              then source[i - destinationOffset / WORD_BYTES + sourceOffset / WORD_BYTES]
              else destination[i]
  {
    var s, d, n := sourceOffset / WORD_BYTES, destinationOffset / WORD_BYTES, size / WORD_BYTES;
    destination[..d] + source[s..s + n] + destination[d + n..]
  }

  /** A copy from offset 0 of as many bytes as both buffers hold replaces the destination wholesale. */
  lemma WholeBufferCopy(source: seq<u32>, destination: seq<u32>)
    requires |source| == |destination|
    ensures CopyIsValid(source, 0, destination, 0, |source| * WORD_BYTES)
    ensures CopyBufferToBuffer(source, 0, destination, 0, |source| * WORD_BYTES) == source
  {
    var r := CopyBufferToBuffer(source, 0, destination, 0, |source| * WORD_BYTES);
    assert forall i :: 0 <= i < |r| ==> r[i] == source[i];
  }
}
