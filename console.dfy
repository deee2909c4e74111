/**
 * The terminal renderer of `src/main.rs`: `repr` draws one cell as two
 * glyphs and `display_data` prints the row-major grid one row per line.
 */
module Console {
  import opened Rust

  /** What `repr` draws for a dead cell. */
  const DEAD: string := "__"
  /** What `repr` draws for a live cell. */
  const ALIVE: string := "██"
  /** The message of the panic in `slice::chunks` when the chunk size is 0. */
  const ZERO_CHUNK_SIZE: string := "chunk size must be non-zero"

  /** `repr`: every cell is two characters, underscores when it is 0 and full blocks otherwise. */
  function Repr(cell: u32): (glyphs: string)
    ensures |glyphs| == 2
    ensures glyphs == DEAD <==> cell == 0
    ensures glyphs == ALIVE <==> cell != 0
  {
    if cell == 0 then DEAD else ALIVE
  }

  /** `[String]::join(separator)`. */
  function Join(parts: seq<string>, separator: string): string
    decreases |parts|
  {
    if |parts| == 0 then ""
    else if |parts| == 1 then parts[0]
    else parts[0] + separator + Join(parts[1..], separator)
  }

  /** `row.iter().map(|x| repr(*x)).collect::<Vec<_>>()`. */
  function Glyphs(row: seq<u32>): (parts: seq<string>)
    ensures |parts| == |row|
    ensures forall j :: 0 <= j < |row| ==> parts[j] == Repr(row[j])
  {
    seq(|row|, j requires 0 <= j < |row| => Repr(row[j]))
  }

  /** The line `display_data` prints for one row: the cells' glyphs joined with no separator. */
  function RenderRow(row: seq<u32>): string
  {
    Join(Glyphs(row), "")
  }

  /** Joining with the empty separator is plain concatenation: a line is its first cell's glyphs followed by the rest of the line. */
  lemma {:induction false} RenderRowCons(row: seq<u32>)
    requires |row| > 0
    ensures RenderRow(row) == Repr(row[0]) + RenderRow(row[1..])
  {
    assert Glyphs(row)[1..] == Glyphs(row[1..]);
    if |row| == 1 {
      assert Glyphs(row[1..]) == [];
    }
  }

  /** The two characters that draw cell j of a line. */
  function GlyphAt(line: string, j: nat): string
    requires 2 * j + 2 <= |line|
  {
    line[2 * j .. 2 * j + 2]
  }

  /** Past the first two characters, the glyphs of a line are those of its remainder. */
  lemma GlyphAtShift(first: string, rest: string, j: nat)
    requires |first| == 2 && 0 < j && 2 * j + 2 <= 2 + |rest|
    ensures GlyphAt(first + rest, j) == GlyphAt(rest, j - 1)
  {
    assert (first + rest)[2 * j .. 2 * j + 2] == rest[2 * j - 2 .. 2 * j];
  }

  /** A rendered row has two characters per cell, and cell j is drawn at characters 2j and 2j+1. */
  lemma {:induction false} RenderRowGlyphs(row: seq<u32>)
    ensures |RenderRow(row)| == 2 * |row|
    ensures forall j: nat :: j < |row| ==> GlyphAt(RenderRow(row), j) == Repr(row[j])
  {
    if |row| == 0 {
      assert Glyphs(row) == [];
    } else {
      RenderRowCons(row);
      var first, tail := Repr(row[0]), row[1..];
      RenderRowGlyphs(tail);
      var rest := RenderRow(tail);
      forall j: nat | j < |row|
        ensures GlyphAt(first + rest, j) == Repr(row[j])
      {
        if j > 0 {
          GlyphAtShift(first, rest, j);
          assert tail[j - 1] == row[j];
        }
      }
    }
  }

  /** `data.chunks(size)`: consecutive pieces of `size` cells from the front, the last one possibly shorter. */
  function Chunks(data: seq<u32>, size: nat): (rows: seq<seq<u32>>)
    requires size > 0
    decreases |data|
  {
    if |data| == 0 then []
    else if |data| <= size then [data]
    else [data[..size]] + Chunks(data[size..], size)
  }

  /** (k + 1) pieces of `size` are one piece more than k of them. */
  lemma MulSucc(k: int, size: int)
    ensures (k + 1) * size == k * size + size
  {
  }

  /** The chunks are the fewest pieces of `size` that hold all the data. */
  lemma {:induction false} ChunksCount(data: seq<u32>, size: nat)
    requires size > 0
    ensures (|Chunks(data, size)| - 1) * size < |data| <= |Chunks(data, size)| * size
    decreases |data|
  {
    if |data| > size {
      var rest := data[size..];
      ChunksCount(rest, size);
      var m := |Chunks(rest, size)|;
      MulSucc(m, size);
      MulSucc(m - 1, size);
    }
  }

  /** Row k of a row-major grid of `width` columns: its cells from k*width up to the next row or the end. */
  function RowCells(data: seq<u32>, width: nat, k: nat): seq<u32>
  {
    data[Min(k * width, |data|) .. Min(k * width + width, |data|)]
  }

  /** Dropping the first `width` cells moves every window of the data `width` cells to the left. */
  lemma SuffixWindow(data: seq<u32>, width: nat, a: nat)
    requires 0 < width < |data|
    ensures data[width..][Min(a, |data| - width) .. Min(a + width, |data| - width)]
         == data[Min(a + width, |data|) .. Min(a + width + width, |data|)]
  {
  }

  /** Row k of the data without its first row is row k+1 of the data. */
  lemma RowCellsShift(data: seq<u32>, width: nat, k: nat)
    requires 0 < width < |data|
    ensures RowCells(data[width..], width, k) == RowCells(data, width, k + 1)
  {
    var a := k * width;
    assert (k + 1) * width == a + width by { MulSucc(k, width); }
    assert RowCells(data, width, k + 1) == data[Min(a + width, |data|) .. Min(a + width + width, |data|)];
    assert RowCells(data[width..], width, k) == data[width..][Min(a, |data| - width) .. Min(a + width, |data| - width)];
    SuffixWindow(data, width, a);
  }

  /** Chunk k is row k of the data laid out `size` cells per row, and it starts inside the data. */
  lemma {:induction false} ChunkAt(data: seq<u32>, size: nat, k: nat)
    requires size > 0 && k < |Chunks(data, size)|
    ensures k * size < |data|
    ensures Chunks(data, size)[k] == RowCells(data, size, k)
    decreases |data|
  {
    if k > 0 {
      var rest := data[size..];
      assert Chunks(data, size)[k] == Chunks(rest, size)[k - 1];
      ChunkAt(rest, size, k - 1);
      RowCellsShift(data, size, k - 1);
      MulSucc(k - 1, size);
    } else {
      assert 0 * size == 0;
    }
  }

  lemma MulLeq(a: nat, b: nat, size: nat)
    requires a <= b
    ensures a * size <= b * size
  {
  }

  /** Position j of row k is cell k*width + j of the data. */
  lemma CellOfRow(data: seq<u32>, width: nat, k: nat, j: nat)
    requires j < width && k * width + j < |data|
    ensures j < |RowCells(data, width, k)|
    ensures RowCells(data, width, k)[j] == data[k * width + j]
  {
    var a := k * width;
    assert RowCells(data, width, k) == data[Min(a, |data|) .. Min(a + width, |data|)];
    CellOfWindow(data, a, width, j);
  }

  /** Position j of the window of `width` cells at offset a is cell a + j. */
  lemma CellOfWindow(data: seq<u32>, a: nat, width: nat, j: nat)
    requires j < width && a + j < |data|
    ensures j < |data[Min(a, |data|) .. Min(a + width, |data|)]|
    ensures data[Min(a, |data|) .. Min(a + width, |data|)][j] == data[a + j]
  {
  }

  /** Euclidean division of a cell index by the row width, as arithmetic alone. */
  lemma DivideIndex(i: nat, size: nat, count: nat)
    requires size > 0 && i < count * size
    ensures i == (i / size) * size + i % size && i % size < size
    ensures i / size < count
  {
    var k := i / size;
    if k >= count {
      MulLeq(count, k, size);
      assert false;
    }
  }

  /** Cell i of the data lies in chunk i / size, at position i % size. */
  lemma ChunkOfCell(data: seq<u32>, size: nat, i: nat)
    requires size > 0 && i < |data|
    ensures i / size < |Chunks(data, size)|
    ensures i % size < |Chunks(data, size)[i / size]|
    ensures Chunks(data, size)[i / size][i % size] == data[i]
  {
    ChunksCount(data, size);
    DivideIndex(i, size, |Chunks(data, size)|);
    ChunkAt(data, size, i / size);
    CellOfRow(data, size, i / size, i % size);
  }

  /** The lines drawn from the chunks of `width` cells, one line per chunk, in order. */
  ghost predicate LinesOfChunks(data: seq<u32>, width: nat, lines: seq<string>)
    requires width > 0
  {
    && |lines| == |Chunks(data, width)|
    && forall k :: 0 <= k < |lines| ==> lines[k] == RenderRow(Chunks(data, width)[k])
  }

  /** In a grid of `count` rows that start inside the data, every row holds 1 to width cells and all but the last hold width. */
  lemma RowLength(data: seq<u32>, width: nat, count: nat, k: nat)
    requires width > 0 && k < count && (count - 1) * width < |data| <= count * width
    requires k * width < |data|
    ensures 0 < |RowCells(data, width, k)| <= width
    ensures k < count - 1 ==> |RowCells(data, width, k)| == width
  {
    var a := k * width;
    assert |RowCells(data, width, k)| == Min(a + width, |data|) - a;
    if k < count - 1 {
      MulLeq(k + 1, count - 1, width);
      MulSucc(k, width);
      assert a + width <= |data|;
    }
  }

  /** Each line is the drawing of its row: never empty, 2*width characters when the row is full, and only the last row may be short. */
  lemma LinesAreRows(data: seq<u32>, width: nat, lines: seq<string>)
    requires width > 0 && LinesOfChunks(data, width, lines)
    ensures (|lines| - 1) * width < |data| <= |lines| * width
    ensures forall k: nat :: k < |lines| ==> lines[k] == RenderRow(RowCells(data, width, k))
    ensures forall k :: 0 <= k < |lines| ==> 0 < |lines[k]| <= 2 * width
    ensures forall k :: 0 <= k < |lines| - 1 ==> |lines[k]| == 2 * width
  {
    ChunksCount(data, width);
    forall k: nat | k < |lines|
      ensures lines[k] == RenderRow(RowCells(data, width, k))
      ensures 0 < |lines[k]| <= 2 * width
      ensures k < |lines| - 1 ==> |lines[k]| == 2 * width
    {
      ChunkAt(data, width, k);
      RenderRowGlyphs(RowCells(data, width, k));
      RowLength(data, width, |lines|, k);
    }
  }

  /** Line i / width of `lines` draws `cell` at glyph position i % width. */
  ghost predicate DrawsCellAt(lines: seq<string>, width: nat, i: nat, cell: u32)
    requires width > 0
  {
    && i / width < |lines|
    && 2 * (i % width) + 2 <= |lines[i / width]|
    && GlyphAt(lines[i / width], i % width) == Repr(cell)
  }

  /** Cell i is drawn in line i / width, at glyph position i % width. */
  lemma LinesDrawCells(data: seq<u32>, width: nat, lines: seq<string>)
    requires width > 0 && LinesOfChunks(data, width, lines)
    ensures forall i: nat :: i < |data| ==> DrawsCellAt(lines, width, i, data[i])
  {
    forall i: nat | i < |data|
      ensures DrawsCellAt(lines, width, i, data[i])
    {
      ChunkOfCell(data, width, i);
      RenderRowGlyphs(Chunks(data, width)[i / width]);
    }
  }

  /**
   * `display_data(data, width)`: the lines it prints. It panics when `width`
   * is 0; otherwise it prints one line per chunk of `width` cells, each line
   * the chunk's glyphs in order, so a full line has 2*width characters and
   * cell i is drawn in line i / width at glyph position i % width.
   */
  method DisplayData(data: seq<u32>, width: u32) returns (r: Outcome<seq<string>>)
    ensures r.Panicked? <==> width == 0
    ensures r.Panicked? ==> r.message == ZERO_CHUNK_SIZE
    ensures r.Returned? ==>
      var lines, w := r.value, width as nat;
      && (|lines| - 1) * w < |data| <= |lines| * w
      && (forall k: nat :: k < |lines| ==> lines[k] == RenderRow(RowCells(data, w, k)))
      && (forall k :: 0 <= k < |lines| ==> 0 < |lines[k]| <= 2 * w)
      && (forall k :: 0 <= k < |lines| - 1 ==> |lines[k]| == 2 * w)
      && (forall i: nat :: i < |data| ==> DrawsCellAt(lines, w, i, data[i]))
  {
    if width == 0 {
      return Panicked(ZERO_CHUNK_SIZE);
    }
    var w := width as nat;
    var rows := Chunks(data, w);
    var lines: seq<string> := [];
    for k := 0 to |rows|
      invariant |lines| == k
      invariant forall j :: 0 <= j < k ==> lines[j] == RenderRow(rows[j])
    {
      lines := lines + [RenderRow(rows[k])];
    }
    LinesAreRows(data, w, lines);
    LinesDrawCells(data, w, lines);
    return Returned(lines);
  }

  /** Reads a printed line back, glyph pair by glyph pair, as alive flags; None for text `repr` never produces. */
  function ReadRow(line: string): Option<seq<bool>>
    decreases |line|
  {
    if |line| == 0 then Some([])
    else if |line| < 2 then None
    else
      var rest := ReadRow(line[2..]);
      if rest.None? then None
      else if line[..2] == DEAD then Some([false] + rest.value)
      else if line[..2] == ALIVE then Some([true] + rest.value)
      else None
  }

  /** Which cells of a row are alive. */
  function AliveFlags(row: seq<u32>): (alive: seq<bool>)
    ensures |alive| == |row|
    ensures forall j :: 0 <= j < |row| ==> (alive[j] <==> row[j] != 0)
  {
    seq(|row|, j requires 0 <= j < |row| => row[j] != 0)
  }

  /** A row without its first cell has the alive flags of the row without the first flag. */
  lemma AliveFlagsCons(row: seq<u32>)
    requires |row| > 0
    ensures AliveFlags(row) == [row[0] != 0] + AliveFlags(row[1..])
  {
  }

  /** Reading a line that starts with one cell's glyphs reads that cell, then the rest. */
  lemma ReadRowCons(first: string, rest: string)
    requires first == DEAD || first == ALIVE
    ensures ReadRow(first + rest) ==
      if ReadRow(rest).None? then None else Some([first == ALIVE] + ReadRow(rest).value)
  {
    var line := first + rest;
    assert line[..2] == first && line[2..] == rest;
  }

  /** A printed line determines exactly which cells of its row are alive: reading it back gives them in order. */
  lemma {:induction false} ReadRenderedRow(row: seq<u32>)
    ensures ReadRow(RenderRow(row)) == Some(AliveFlags(row))
    decreases |row|
  {
    if |row| == 0 {
      assert Glyphs(row) == [];
    } else {
      RenderRowCons(row);
      ReadRenderedRow(row[1..]);
      ReadRowCons(Repr(row[0]), RenderRow(row[1..]));
      AliveFlagsCons(row);
    }
  }
}
