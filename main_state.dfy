/**
 * The simulation state of `src/main.rs`: the two-word `Params` uniform, the
 * grid `run` builds, and `State`, which owns the input, output and staging
 * storage buffers and advances the grid by dispatching the compute shader and
 * publishing the output buffer onto the input buffer.
 */
module MainState {
  import opened Rust
  import opened Gpu

  /** Grid width `run` uses. */
  const WIDTH: u32 := 1440
  /** Grid height `run` uses. */
  const HEIGHT: u32 := 900

  /** The `repr(C)` uniform `Params { width, height }`. */
  datatype Params = Params(width: u32, height: u32)

  /** `Params::new`: both dimensions are stored unchanged. */
  function NewParams(width: u32, height: u32): (p: Params)
    ensures p.width == width && p.height == height
  {
    Params(width, height)
  }

  /** The words `bytemuck::bytes_of(&params)` uploads: the fields in declaration order. */
  function ParamsWords(p: Params): (words: seq<u32>)
    ensures |words| * WORD_BYTES == 8
  {
    [p.width, p.height]
  }

  /** Reads a two-word uniform back as `Params`. */
  function ParamsFromWords(words: seq<u32>): Option<Params>
  {
    if |words| == 2 then Some(Params(words[0], words[1])) else None
  }

  /** The uploaded uniform reads back as the parameters it came from, and only two-word buffers read back at all. */
  lemma ParamsWordsRoundTrip(p: Params, words: seq<u32>)
    ensures ParamsFromWords(ParamsWords(p)) == Some(p)
    ensures ParamsFromWords(words).Some? ==> ParamsWords(ParamsFromWords(words).value) == words
  {
    if |words| == 2 {
      assert words == [words[0], words[1]];
    }
  }

  /**
   * The grid `run` builds: `(0..(WIDTH * HEIGHT)).map(|_| rng.gen::<bool>() as u32)`,
   * with `draw(i)` the i-th boolean the random generator yields. It has one
   * cell per grid position, each 1 for a true draw and 0 for a false one.
   */
  function InitialGrid(draw: nat -> bool): (data: seq<u32>)
    ensures |data| == WIDTH as nat * HEIGHT as nat
    ensures forall i: nat :: i < |data| ==> (data[i] == 0 || data[i] == 1) && (data[i] == 1 <==> draw(i))
  {
    var cells := (WIDTH * HEIGHT) as nat;  // u32 arithmetic: 1296000 does not overflow
    var data := seq(cells, i requires 0 <= i < cells => BoolAsU32(draw(i)));
    assert forall i: nat :: i < cells ==> data[i] == BoolAsU32(draw(i));
    data
  }

  /** The workgroup grid `State::step` dispatches: one workgroup per cell, `width` by `height`. */
  function StepDispatch(p: Params): (d: Dispatch)
    ensures d.x == p.width && d.y == p.height && d.z == 1
    ensures d.Workgroups() == p.width as nat * p.height as nat
  {
    Dispatch(p.width, p.height, 1)
  }

  /** For the grid `run` builds, `step` launches exactly one workgroup per cell. */
  lemma RunDispatchesEveryCell(draw: nat -> bool)
    ensures StepDispatch(NewParams(WIDTH, HEIGHT)).Workgroups() == |InitialGrid(draw)|
  {
  }

  /** The message `State::output` panics with when the staging buffer cannot be mapped. */
  const MAP_FAILED: string := "failed to run compute on gpu!"

  /** The GPU side of `State`: the grid, its parameters and the storage buffers the compute shader binds. */
  class State {
    /** `data`, the grid `State::new` was given; never changed. */
    const data: seq<u32>
    const params: Params
    /** Contents of `compute_param_buffer`. */
    const uniform: seq<u32>
    /** Byte sizes the three storage buffers were created with. */
    const inputSize: nat
    const outputSize: nat
    const stagingSize: nat
    /** Contents of `compute_input_buffer`: the current generation. */
    var input: seq<u32>
    /** Contents of `compute_output_buffer`: where the shader writes the next generation. */
    var output: seq<u32>
    /** Contents of `compute_staging_buffer`: the CPU-readable copy. */
    var staging: seq<u32>
    /** The compute dispatches submitted so far, in order: one per generation. */
    var submitted: seq<Dispatch>

    /** All three buffers have the grid's byte size and hold that many words. */
    ghost predicate Valid()
      reads this
    {
      && inputSize == |data| * WORD_BYTES
      && outputSize == |data| * WORD_BYTES
      && stagingSize == |data| * WORD_BYTES
      && |input| * WORD_BYTES == inputSize
      && |output| * WORD_BYTES == outputSize
      && |staging| * WORD_BYTES == stagingSize
    }

    /**
     * The buffer part of `State::new`: the input buffer holds `data`, the
     * output and staging buffers are `data.len() * 4` bytes of zeros, and the
     * uniform holds `params`.
     */
    constructor (data: seq<u32>, params: Params)
      ensures Valid()
      ensures this.data == data && this.params == params
      ensures uniform == ParamsWords(params)
      ensures input == data
      ensures output == Zeroed(|data| * WORD_BYTES) && staging == Zeroed(|data| * WORD_BYTES)
      ensures submitted == []
    {
      var size := |data| * WORD_BYTES;
      this.data := data;
      this.params := params;
      stagingSize := size;
      staging := Zeroed(size);
      inputSize := |data| * WORD_BYTES;
      input := data;
      outputSize := size;
      output := Zeroed(size);
      uniform := ParamsWords(params);
      submitted := [];
    }

    /**
     * `State::step`: dispatch the shader over `width` by `height` workgroups,
     * which leaves `written` in the output buffer, then copy `data.len() * 4`
     * bytes, the whole output buffer, onto the input buffer. The input buffer
     * is replaced in full by the new generation; staging is untouched.
     */
    method Step(written: seq<u32>)
      requires Valid()
      requires |written| == |output|
      modifies this
      ensures Valid()
      ensures submitted == old(submitted) + [StepDispatch(params)]
      ensures output == written
      ensures input == written
      ensures staging == old(staging)
    {
      submitted := submitted + [StepDispatch(params)];
      output := written;
      var size := |data| * WORD_BYTES;
      WholeBufferCopy(output, input);
      input := CopyBufferToBuffer(output, 0, input, 0, size);
    }

    /**
     * `State::output`: copy the input buffer, the current generation, to the
     * staging buffer and read staging back as words. `mapped` is whether the
     * asynchronous map of the staging buffer succeeded; when it did, the
     * result is the current generation, as many words as `data`, and when it
     * did not, the call panics. It never returns None.
     */
    method Output(mapped: bool) returns (r: Outcome<Option<seq<u32>>>)
      requires Valid()
      modifies this
      ensures Valid()
      ensures input == old(input) && output == old(output) && submitted == old(submitted)
      ensures staging == input
      ensures r.Returned? <==> mapped
      ensures r.Returned? ==> r.value == Some(input) && |r.value.value| == |data|
      ensures r.Panicked? ==> r.message == MAP_FAILED
    {
      var size := |data| * WORD_BYTES;
      WholeBufferCopy(input, staging);
      staging := CopyBufferToBuffer(input, 0, staging, 0, size);
      if mapped {
        var result := staging;
        r := Returned(Some(result));
      } else {
        r := Panicked(MAP_FAILED);
      }
    }
  }
}
