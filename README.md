# Game of Life on the GPU: a Dafny model of its host-side core

The repository runs a Life-like cellular automaton on the GPU with wgpu. The
per-cell transition lives in WGSL compute shaders. The Rust host code
prepares the grid and the shader's parameter uniform, and it sizes the
storage buffers. Each generation it dispatches the shader, then publishes the
output buffer onto the input buffer with a buffer-to-buffer copy. It can also
copy the current generation to a staging buffer and read it back, and it can
print a grid on the terminal, two glyphs per cell.

This project models that host-side core and proves properties of it:

- `rust.dfy` (module `Rust`): `u32`, `Option`, an `Outcome` that is either a returned value or a panic, and `bool as u32`.
- `gpu.dfy` (module `Gpu`): what the core relies on from wgpu, on values.
  - A storage buffer is the sequence of 32-bit words it holds.
  - A buffer made by `create_buffer` is zero-initialised.
  - A dispatch is its workgroup grid.
  - `copy_buffer_to_buffer` is a function. Its precondition models wgpu's alignment and bounds checks: 4-byte alignment, both ranges in bounds.
- `console.dfy` (module `Console`): `repr` and `display_data` of `src/main.rs`.
  - `slice::chunks` and `[String]::join` are written out as functions.
  - `display_data` is a method with the loop of the source. It returns the lines it would print, or the panic `chunks(0)` raises.
- `main_state.dfy` (module `MainState`): `src/main.rs`'s two-word `Params`, the random grid `run` builds, and `State`.
  - `State` is a class. The input, output and staging buffers are sequence fields, and the sizes they were created with are constant fields.
  - `step` and `output` are methods that change those fields.
- `life.dfy` (module `Life`): `src/life.rs`.
  - The 21-field `repr(C)` `Params` and its flattening of two nine-entry rule tables.
  - The 21-word layout `bytes_of` uploads, and reading it back.
  - The `width / 16`, `height / 16` workgroup arithmetic of `Life::step` and which cells its tiles reach.
  - The `Life` class with its two buffers.

`src/life.rs` is not compiled into the program (`src/main.rs` has no `mod life;`). It is modelled on its own.

The shader is not part of this model. A step's method takes `written`: the
contents the compute pass leaves in the output buffer. The model then proves
what the host code does with them. The shader's result becomes the new
input buffer in full, never partially, and the bytes copied equal the size
both buffers were created with.

## Model

| member | source | states |
|---|---|---|
| `Rust.BoolAsU32` | src/main.rs:570 | `b as u32` is 1 for true and 0 for false, so it is always 0 or 1 |
| `Gpu.Zeroed` | src/main.rs:182-187 | a buffer created with `size` bytes holds `size / 4` words, all zero |
| `Gpu.CopyBufferToBuffer` | src/main.rs:448-454 | the destination keeps its length; the `size` bytes at the destination offset equal those at the source offset; every other word is unchanged |
| `Gpu.WholeBufferCopy` | src/main.rs:443-454 | between buffers of equal length, copying `len * 4` bytes from offset 0 passes wgpu's checks and makes the destination equal to the source |
| `Console.Repr` | src/main.rs:103-109 | a cell is drawn as exactly two characters: `__` exactly when it is 0, `██` exactly when it is not |
| `Console.RenderRowCons` | src/main.rs:112 | joining the glyphs with `""` is concatenation: a line is its first cell's glyphs followed by the line of the remaining cells |
| `Console.RenderRowGlyphs` | src/main.rs:112 | a row's line has 2 characters per cell, and cell j is drawn at characters 2j and 2j+1 |
| `Console.ChunksCount` | src/main.rs:111 | `chunks(width)` yields the fewest pieces of `width` that hold all the cells: (n-1)·width < len ≤ n·width |
| `Console.ChunkAt` | src/main.rs:111 | chunk k starts inside the data and is the cells from k·width up to (k+1)·width or the end |
| `Console.ChunkOfCell` | src/main.rs:111 | cell i lies in chunk i / width at position i % width |
| `Console.LinesAreRows` | src/main.rs:110-114 | line k is the drawing of row k; no line is empty; every line but the last has exactly 2·width characters, and the last has at most that |
| `Console.LinesDrawCells` | src/main.rs:110-114 | grid cell i is drawn in line i / width at glyph position i % width |
| `Console.DisplayData` | src/main.rs:110-115 | it panics exactly when width is 0. Otherwise it yields ceil(len / width) lines, in row order: line k draws row k, full lines have 2·width characters, and cell i is line i / width, glyph i % width |
| `Console.ReadRenderedRow` | src/main.rs:103-112 | reading a printed line back two characters at a time gives exactly which cells of its row are alive, in order |
| `MainState.NewParams` | src/main.rs:75-79 | `Params::new(width, height)` stores both values unchanged |
| `MainState.ParamsWordsRoundTrip` | src/main.rs:188-192 | the two-word uniform reads back as the parameters it was made from, and every two-word buffer is the layout of what it reads as |
| `MainState.InitialGrid` | src/main.rs:561-571 | `run`'s grid has exactly WIDTH·HEIGHT cells. Each is 0 or 1, and it is 1 exactly when its random draw was true |
| `MainState.StepDispatch` | src/main.rs:440 | `step` dispatches a grid of `width` workgroups in x, `height` in y and 1 in z, so `width × height` workgroups in all |
| `MainState.RunDispatchesEveryCell` | src/main.rs:561-572 | for the grid `run` builds, `step` launches exactly one workgroup per cell |
| `MainState.State.constructor` | src/main.rs:165-192 | the input buffer holds `data`. The output and staging buffers are `data.len() * 4` zero bytes. All three have the grid's byte size, and the uniform holds `params` |
| `MainState.State.Step` | src/main.rs:430-458 | it appends one `width × height` dispatch. The output buffer holds what the shader wrote, and the input buffer then equals it in full. Staging is untouched and the buffer sizes are kept |
| `MainState.State.Output` | src/main.rs:380-429 | it copies the input buffer, not the output buffer, to staging. When mapping succeeds it returns `Some` of the current generation, as many words as `data`. When mapping fails it panics with the source's message, and it never returns `None` |
| `Life.NewParams` | src/life.rs:34-64 | width, height and lifetime are stored unchanged, field `a_rule_i` is `alive_rules[i]` and field `d_rule_i` is `dead_rules[i]` for every i in 0..8 |
| `Life.PackedLayout` | src/life.rs:9-64 | the uploaded uniform is width, height, lifetime, then the nine survive entries, then the nine birth entries |
| `Life.LayoutRoundTrip` | src/life.rs:9-31 | the 21-word layout reads back as the parameters it came from, and every 21-word buffer is the layout of what it reads as |
| `Life.RulesReadBack` | src/life.rs:41-63 | reading the uniform back recovers both rule tables exactly, from words 3-11 and 12-20; survive and birth entries never cross over |
| `Life.StepWorkgroups` | src/life.rs:156-159 | the counts are `width / 16` and `height / 16`, so xgroups·16 ≤ width < (xgroups+1)·16 and likewise for y. This holds with the tile height too, because both components of WORKGROUP_SIZE are 16 |
| `Life.TilesCoverGrid` | src/life.rs:5-159 | the dispatched tiles lie inside the grid. They cover every cell of a non-empty grid exactly when width and height are both multiples of 16 |
| `Life.Life.constructor` | src/life.rs:77-144 | `params` and `data` are stored unchanged. The input buffer holds `data`, the output buffer is `data.len() * 4` zero bytes, and the uniform is the 21-word layout of `params` |
| `Life.Life.Step` | src/life.rs:146-177 | it appends one `width / 16 × height / 16` dispatch. The output buffer holds what the shader wrote, and the input buffer then equals it in full |

## Left out

- The WGSL shaders (`life.wgsl`, `shader.wgsl`) are not part of this model: neighbour counting, the birth/survive lookup, the edge policy, the use of `lifetime`, and the writes to the output texture. A step takes the shader's result as the parameter `written`.
- `MainState.State.Step`: the shader's effect is a parameter. The only thing assumed of it is that it does not resize the output buffer.
- `Life.Life.Step`: the same as for `State.Step`. Which output cells the shader writes, including those the tiles do not reach, is not modelled.
- wgpu instance, adapter, device and surface setup, shader modules, pipelines, bind groups, the texture, the sampler and the vertex and index buffers: these are foreign library calls, not part of this model.
- Buffer usage flags are not modelled. wgpu's validation of a copy is modelled as a precondition that the source always meets, not as a device error.
- Command encoding and queue submission are not modelled. A step's dispatch and copy take effect when the method is called, in encoding order, and asynchronous GPU execution is not modelled.
- The map callback, `device.poll`, and the oneshot channel in `output` are I/O and asynchrony. Their outcome is the parameter `mapped`.
- `render`, `resize`, `input`, `window`, `update` (which only awaits `step`), the winit event loop and `main` are presentation and UI.
- `Vertex`, `VERTICES` and `INDICES` are floating-point geometry for the full-screen quad.
- The random generator becomes the parameter `draw`. The timing code and the commented-out `term_display` and `test_speed` are left out.
- `println!` is not modelled: `display_data` returns the lines it would print.
- `data.len() * 4` is computed on `usize`. Its overflow needs more than 2^62 cells, so it is not modelled.
- The code validates nothing: the rule tables are `[u32; 9]`, and neither a zero-sized grid nor a device failure is checked. The model does the same.
- `Life.Reached` and `Life.TilesCoverGrid` assume that `life.wgsl` declares a workgroup size equal to `WORKGROUP_SIZE` (16 by 16 by 1). That shader is not part of this model, and the constant at src/life.rs:5 is the only indication of the size.
- Only the alignment and bounds checks of a copy are modelled. wgpu's other checks are not: that source and destination are different buffers, the mapped state, and usage flags.
- Device limits from `Limits::downlevel_defaults()` are not modelled, for example at most 65535 workgroups per dimension. `MainState.StepDispatch` accepts any `u32` width and height, so `step` is modelled as succeeding for grids the device would reject.
- Line and glyph lengths in `Console` count characters (Unicode scalar values), not the UTF-8 bytes of a Rust `String`. `"██"` is 2 characters but 6 bytes, so a full live line is 2·width characters and 6·width bytes.
- Publishing a generation is a copy of the output buffer onto the input buffer, not a swap of two buffer handles. The model follows the code.
