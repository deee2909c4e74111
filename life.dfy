/**
 * `src/life.rs`: the simulation parameters as the shader's `repr(C)` uniform
 * (width, height, lifetime and two nine-entry rule tables flattened into
 * eighteen words), the workgroup arithmetic of `Life::step`, and `Life`,
 * which owns the input and output storage buffers.
 */
module Life {
  import opened Rust
  import opened Gpu

  /** The tile size `Life::step` divides the grid by. */
  const WORKGROUP_SIZE: (u32, u32) := (16, 16)

  /** Number of words in the uniform: width, height, lifetime and 2 * 9 rule entries. */
  const PARAMS_WORDS: nat := 21

  /** A `[u32; 9]` rule table, indexed by live-neighbour count 0 to 8. */
  type RuleTable = s: seq<u32> | |s| == 9 witness [0, 0, 0, 0, 0, 0, 0, 0, 0]

  /** The `repr(C)` struct `Params`, field for field. */
  datatype Params = Params(
    width: u32, height: u32, lifetime: u32,
    aRule0: u32, aRule1: u32, aRule2: u32, aRule3: u32, aRule4: u32, aRule5: u32, aRule6: u32, aRule7: u32, aRule8: u32,
    dRule0: u32, dRule1: u32, dRule2: u32, dRule3: u32, dRule4: u32, dRule5: u32, dRule6: u32, dRule7: u32, dRule8: u32)

  /** The survive table held in `a_rule_0` to `a_rule_8`. */
  function AliveRules(p: Params): RuleTable
  {
    [p.aRule0, p.aRule1, p.aRule2, p.aRule3, p.aRule4, p.aRule5, p.aRule6, p.aRule7, p.aRule8]
  }

  /** The birth table held in `d_rule_0` to `d_rule_8`. */
  function DeadRules(p: Params): RuleTable
  {
    [p.dRule0, p.dRule1, p.dRule2, p.dRule3, p.dRule4, p.dRule5, p.dRule6, p.dRule7, p.dRule8]
  }

  /**
   * `Params::new`: width, height and lifetime are stored unchanged, field
   * `a_rule_i` is `alive_rules[i]` and field `d_rule_i` is `dead_rules[i]`.
   */
  function NewParams(width: u32, height: u32, lifetime: u32, aliveRules: RuleTable, deadRules: RuleTable): (p: Params)
    ensures p.width == width && p.height == height && p.lifetime == lifetime
    ensures forall i :: 0 <= i < 9 ==> AliveRules(p)[i] == aliveRules[i] && DeadRules(p)[i] == deadRules[i]
  {
    Params(width, height, lifetime,
      aliveRules[0], aliveRules[1], aliveRules[2], aliveRules[3], aliveRules[4], aliveRules[5], aliveRules[6], aliveRules[7], aliveRules[8],
      deadRules[0], deadRules[1], deadRules[2], deadRules[3], deadRules[4], deadRules[5], deadRules[6], deadRules[7], deadRules[8])
  }

  /** The words `bytemuck::bytes_of(&params)` uploads: the 21 fields in declaration order, 4 bytes each. */
  function Layout(p: Params): (words: seq<u32>)
    ensures |words| == PARAMS_WORDS
  {
    [p.width, p.height, p.lifetime,
     p.aRule0, p.aRule1, p.aRule2, p.aRule3, p.aRule4, p.aRule5, p.aRule6, p.aRule7, p.aRule8,
     p.dRule0, p.dRule1, p.dRule2, p.dRule3, p.dRule4, p.dRule5, p.dRule6, p.dRule7, p.dRule8]
  }

  /** Reads a 21-word uniform back field by field. */
  function FromLayout(words: seq<u32>): Option<Params>
  {
    if |words| != PARAMS_WORDS then None
    else Some(Params(words[0], words[1], words[2],
        words[3], words[4], words[5], words[6], words[7], words[8], words[9], words[10], words[11],
        words[12], words[13], words[14], words[15], words[16], words[17], words[18], words[19], words[20]))
  }

  /**
   * The uniform `Params::new` produces is the three dimensions followed by the
   * whole survive table and then the whole birth table.
   */
  lemma PackedLayout(width: u32, height: u32, lifetime: u32, aliveRules: RuleTable, deadRules: RuleTable)
    ensures Layout(NewParams(width, height, lifetime, aliveRules, deadRules))
         == [width, height, lifetime] + aliveRules + deadRules
  {
    var p := NewParams(width, height, lifetime, aliveRules, deadRules);
    var expected := [width, height, lifetime] + aliveRules + deadRules;
    assert forall i :: 3 <= i < 12 ==> expected[i] == aliveRules[i - 3];
    assert forall i :: 12 <= i < 21 ==> expected[i] == deadRules[i - 12];
  }

  /** Reading the uploaded uniform back recovers the parameters, and a 21-word buffer is the layout of what it reads as. */
  lemma LayoutRoundTrip(p: Params, words: seq<u32>)
    ensures FromLayout(Layout(p)) == Some(p)
    ensures FromLayout(words).Some? ==> Layout(FromLayout(words).value) == words
  {
    if |words| == PARAMS_WORDS {
      assert Layout(FromLayout(words).value) == words;
    }
  }

  /** The two rule tables come back out of the uniform exactly: survive entries at words 3 to 11, birth entries at words 12 to 20. */
  lemma RulesReadBack(width: u32, height: u32, lifetime: u32, aliveRules: RuleTable, deadRules: RuleTable)
    ensures var words := Layout(NewParams(width, height, lifetime, aliveRules, deadRules));
      && words[3..12] == aliveRules && words[12..21] == deadRules
      && AliveRules(FromLayout(words).value) == aliveRules
      && DeadRules(FromLayout(words).value) == deadRules
  {
    PackedLayout(width, height, lifetime, aliveRules, deadRules);
    var p := NewParams(width, height, lifetime, aliveRules, deadRules);
    LayoutRoundTrip(p, Layout(p));
    var words := [width, height, lifetime] + aliveRules + deadRules;
    assert words[3..12] == aliveRules;
    assert words[12..21] == deadRules;
  }

  /**
   * The workgroup grid `Life::step` dispatches: `width / 16` by `height / 16`
   * by 1. Both counts divide by the first component of WORKGROUP_SIZE; that
   * gives the right y count only because both components are 16. The counts
   * are the whole tiles that fit: the tiles never reach past the grid, and
   * one more tile in either direction would.
   */
  function StepWorkgroups(p: Params): (d: Dispatch)
    ensures d.z == 1
    ensures d.x as nat * WORKGROUP_SIZE.0 as nat <= p.width as nat < (d.x as nat + 1) * WORKGROUP_SIZE.0 as nat
    ensures d.y as nat * WORKGROUP_SIZE.1 as nat <= p.height as nat < (d.y as nat + 1) * WORKGROUP_SIZE.1 as nat
  {
    var xgroups := p.width / WORKGROUP_SIZE.0;
    var ygroups := p.height / WORKGROUP_SIZE.0;
    Dispatch(xgroups, ygroups, 1)
  }

  /** Cell (x, y) lies in one of the WORKGROUP_SIZE tiles that `d` launches from the origin. */
  predicate Reached(d: Dispatch, x: nat, y: nat)
  {
    x < d.x as nat * WORKGROUP_SIZE.0 as nat && y < d.y as nat * WORKGROUP_SIZE.1 as nat
  }

  /** Every cell of the width by height grid lies in a launched tile. */
  ghost predicate CoversGrid(p: Params)
  {
    forall x: nat, y: nat :: x < p.width as nat && y < p.height as nat ==> Reached(StepWorkgroups(p), x, y)
  }

  /**
   * The tiles of `Life::step` lie inside the grid, and they cover all of a
   * non-empty grid exactly when both its width and its height are multiples
   * of 16; otherwise the last `width % 16` columns or `height % 16` rows are
   * not reached.
   */
  lemma TilesCoverGrid(p: Params)
    ensures forall x: nat, y: nat :: Reached(StepWorkgroups(p), x, y) ==> x < p.width as nat && y < p.height as nat
    ensures CoversGrid(p) <==> (p.width == 0 || p.height == 0 || (p.width % 16 == 0 && p.height % 16 == 0))
  {
    var d := StepWorkgroups(p);
    if p.width != 0 && p.height != 0 {
      if p.width % 16 != 0 {
        assert !Reached(d, p.width as nat - 1, 0);
      } else if p.height % 16 != 0 {
        assert !Reached(d, 0, p.height as nat - 1);
      }
    }
  }

  /** The GPU side of `Life`: its parameters, its grid and the two storage buffers the shader binds. */
  class Life {
    const params: Params
    /** `data`, the grid `Life::new` was given; never changed. */
    const data: seq<u32>
    /** Contents of `compute_param_buffer`. */
    const uniform: seq<u32>
    /** Byte sizes the two storage buffers were created with. */
    const inputSize: nat
    const outputSize: nat
    /** Contents of `compute_input_buffer`: the current generation. */
    var input: seq<u32>
    /** Contents of `compute_output_buffer`: where the shader writes the next generation. */
    var output: seq<u32>
    /** The compute dispatches submitted so far, in order: one per generation. */
    var submitted: seq<Dispatch>

    /** Both buffers have the grid's byte size and hold that many words. */
    ghost predicate Valid()
      reads this
    {
      && inputSize == |data| * WORD_BYTES
      && outputSize == |data| * WORD_BYTES
      && |input| * WORD_BYTES == inputSize
      && |output| * WORD_BYTES == outputSize
    }

    /**
     * The state part of `Life::new`: `params` and `data` are stored unchanged,
     * the input buffer holds `data`, the output buffer is `data.len() * 4`
     * bytes of zeros and the uniform holds the 21-word layout of `params`.
     */
    constructor (data: seq<u32>, params: Params)
      ensures Valid()
      ensures this.params == params && this.data == data
      ensures uniform == Layout(params)
      ensures input == data && output == Zeroed(|data| * WORD_BYTES)
      ensures submitted == []
    {
      var size := |data| * WORD_BYTES;
      this.params := params;
      this.data := data;
      inputSize := |data| * WORD_BYTES;
      input := data;
      outputSize := size;
      output := Zeroed(size);
      uniform := Layout(params);
      submitted := [];
    }

    /**
     * `Life::step`: dispatch `width / 16` by `height / 16` workgroups, which
     * leaves `written` in the output buffer, then copy `data.len() * 4` bytes,
     * the whole output buffer, onto the input buffer.
     */
    method Step(written: seq<u32>)
      requires Valid()
      requires |written| == |output|
      modifies this
      ensures Valid()
      ensures submitted == old(submitted) + [StepWorkgroups(params)]
      ensures output == written
      ensures input == written
    {
      submitted := submitted + [StepWorkgroups(params)];
      output := written;
      var size := |data| * WORD_BYTES;
      WholeBufferCopy(output, input);
      input := CopyBufferToBuffer(output, 0, input, 0, size);
    }
  }
}
