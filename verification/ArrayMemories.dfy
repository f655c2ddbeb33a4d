/** `ArrayMemory` and `MultiDimArrayMemory`: reads and writes of boxes of numpy arrays. */
module ArrayMemories {
  import opened ColumnMajor
  import opened Types

  // ----- the value of an n-dimensional array

  /** Elements in row-major order. */
  datatype Grid<T> = Grid(shape: seq<nat>, cells: seq<T>)

  predicate ValidGrid<T>(g: Grid<T>) {
    |g.cells| == Product(g.shape)
  }

  function Get<T>(g: Grid<T>, idx: seq<nat>): T
    requires ValidGrid(g) && InBounds(g.shape, idx)
  {
    RowIndexInverse(g.shape, idx);
    g.cells[RowIndex(g.shape, idx)]
  }

  /** The box of `count` elements from `pos` on lies inside an array of the given shape. */
  predicate BoxFits(shape: seq<nat>, pos: seq<nat>, count: seq<nat>) {
    |pos| == |count| == |shape| && forall d | 0 <= d < |shape| :: pos[d] + count[d] <= shape[d]
  }

  predicate InBox(idx: seq<nat>, pos: seq<nat>, count: seq<nat>) {
    |idx| == |pos| == |count| && forall d | 0 <= d < |idx| :: pos[d] <= idx[d] < pos[d] + count[d]
  }

  /** The index at the same place of the box from `there` on as `idx` has in the box from `here` on. */
  function Shift(idx: seq<nat>, here: seq<nat>, there: seq<nat>): (r: seq<nat>)
    requires |idx| == |here| == |there| && forall d | 0 <= d < |idx| :: here[d] <= idx[d]
    ensures |r| == |idx|
  {
    seq(|idx|, d requires 0 <= d < |idx| => idx[d] - here[d] + there[d])
  }

  function Add(a: seq<nat>, b: seq<nat>): (r: seq<nat>)
    requires |a| == |b|
    ensures |r| == |a|
  {
    seq(|a|, d requires 0 <= d < |a| => a[d] + b[d])
  }

  /** `dst[box at dpos] = src[box at spos]`. */
  function BoxCopy<T>(dst: Grid<T>, dpos: seq<nat>, src: Grid<T>, spos: seq<nat>, count: seq<nat>): (r: Grid<T>)
    requires ValidGrid(dst) && ValidGrid(src)
    requires BoxFits(dst.shape, dpos, count) && BoxFits(src.shape, spos, count)
    ensures r.shape == dst.shape && ValidGrid(r)
  {
    Grid(dst.shape, seq(|dst.cells|, k requires 0 <= k < |dst.cells| => CellAfter(dst, dpos, src, spos, count, k)))
  }

  function CellAfter<T>(dst: Grid<T>, dpos: seq<nat>, src: Grid<T>, spos: seq<nat>, count: seq<nat>, k: nat): T
    requires ValidGrid(dst) && ValidGrid(src) && k < |dst.cells|
    requires BoxFits(dst.shape, dpos, count) && BoxFits(src.shape, spos, count)
  {
    var idx := RowMulti(dst.shape, k);
    if InBox(idx, dpos, count) then Get(src, Shift(idx, dpos, spos)) else dst.cells[k]
  }

  // ----- boxes that reach over the edge

  /** How many elements of `n` the slice of `count` elements from `pos` on takes. */
  function Clip(n: nat, pos: nat, count: nat): nat {
    if n <= pos then 0 else if n - pos < count then n - pos else count
  }

  function Clipped(shape: seq<nat>, pos: seq<nat>, count: seq<nat>): (r: seq<nat>)
    requires |pos| == |count| == |shape|
    ensures |r| == |shape|
  {
    seq(|shape|, d requires 0 <= d < |shape| => Clip(shape[d], pos[d], count[d]))
  }

  /** numpy assigns a box to another if they agree in each dimension in which the source is not 1. */
  predicate Assignable(to: seq<nat>, from: seq<nat>) {
    |to| == |from| && forall d | 0 <= d < |to| :: from[d] == to[d] || from[d] == 1
  }

  /** The index whose element goes to `idx`: a source of one element in a dimension is repeated along it. */
  function Source(idx: seq<nat>, dpos: seq<nat>, spos: seq<nat>, from: seq<nat>): (r: seq<nat>)
    requires |idx| == |dpos| == |spos| == |from| && forall d | 0 <= d < |idx| :: dpos[d] <= idx[d]
    ensures |r| == |idx|
  {
    seq(|idx|, d requires 0 <= d < |idx| => spos[d] + if from[d] == 1 then 0 else idx[d] - dpos[d])
  }

  /** `dst[box at dpos] = src[box at spos]` for any boxes; nothing is the exception for boxes that cannot
      be assigned. */
  function BoxAssign<T>(dst: Grid<T>, dpos: seq<nat>, src: Grid<T>, spos: seq<nat>, count: seq<nat>)
      : (r: Option<Grid<T>>)
    requires ValidGrid(dst) && ValidGrid(src) && |dpos| == |count| == |dst.shape| && |spos| == |src.shape| == |count|
    ensures r.Just? ==> r.value.shape == dst.shape && ValidGrid(r.value)
  {
    var to, from := Clipped(dst.shape, dpos, count), Clipped(src.shape, spos, count);
    if !Assignable(to, from) then Nothing
    else
      Just(Grid(dst.shape, seq(|dst.cells|, k requires 0 <= k < |dst.cells| =>
        AssignedCell(dst, dpos, src, spos, to, from, k))))
  }

  predicate ClipFits(shape: seq<nat>, pos: seq<nat>, clipped: seq<nat>) {
    |pos| == |clipped| == |shape| && forall d | 0 <= d < |shape| && clipped[d] > 0 :: pos[d] + clipped[d] <= shape[d]
  }

  lemma SourceInBounds(idx: seq<nat>, dpos: seq<nat>, shape: seq<nat>, spos: seq<nat>, to: seq<nat>, from: seq<nat>)
    requires InBox(idx, dpos, to) && Assignable(to, from) && ClipFits(shape, spos, from)
    ensures InBounds(shape, Source(idx, dpos, spos, from))
  {
  }

  function AssignedCell<T>(dst: Grid<T>, dpos: seq<nat>, src: Grid<T>, spos: seq<nat>, to: seq<nat>,
                           from: seq<nat>, k: nat): T
    requires ValidGrid(dst) && ValidGrid(src) && k < |dst.cells|
    requires |dpos| == |dst.shape| && Assignable(to, from) && ClipFits(src.shape, spos, from)
  {
    var idx := RowMulti(dst.shape, k);
    if InBox(idx, dpos, to) then
      SourceInBounds(idx, dpos, src.shape, spos, to, from);
      Get(src, Source(idx, dpos, spos, from))
    else dst.cells[k]
  }

  /** After an assignment the part of the box inside the array holds the source's elements, the only one of
      a dimension repeated, and everything else is unchanged. */
  lemma GetBoxAssign<T>(dst: Grid<T>, dpos: seq<nat>, src: Grid<T>, spos: seq<nat>, count: seq<nat>, idx: seq<nat>)
    requires ValidGrid(dst) && ValidGrid(src) && |dpos| == |count| == |dst.shape| && |spos| == |src.shape| == |count|
    requires InBounds(dst.shape, idx) && BoxAssign(dst, dpos, src, spos, count).Just?
    ensures var from := Clipped(src.shape, spos, count);
            var after := Get(BoxAssign(dst, dpos, src, spos, count).value, idx);
            if InBox(idx, dpos, count) then
              var source := Source(idx, dpos, spos, from);
              InBounds(src.shape, source) && after == Get(src, source)
            else after == Get(dst, idx)
  {
    RowIndexInverse(dst.shape, idx);
    var to, from := Clipped(dst.shape, dpos, count), Clipped(src.shape, spos, count);
    assert InBox(idx, dpos, to) <==> InBox(idx, dpos, count);
    if InBox(idx, dpos, to) {
      SourceInBounds(idx, dpos, src.shape, spos, to, from);
    }
  }

  /** A box inside both arrays is copied. */
  lemma FittingBoxIsCopied<T>(dst: Grid<T>, dpos: seq<nat>, src: Grid<T>, spos: seq<nat>, count: seq<nat>)
    requires ValidGrid(dst) && ValidGrid(src)
    requires BoxFits(dst.shape, dpos, count) && BoxFits(src.shape, spos, count)
    ensures BoxAssign(dst, dpos, src, spos, count) == Just(BoxCopy(dst, dpos, src, spos, count))
  {
    var to, from := Clipped(dst.shape, dpos, count), Clipped(src.shape, spos, count);
    assert to == count && from == count;
    var a, b := BoxAssign(dst, dpos, src, spos, count).value, BoxCopy(dst, dpos, src, spos, count);
    forall idx: seq<nat> | InBounds(dst.shape, idx) ensures Get(a, idx) == Get(b, idx) {
      GetBoxAssign(dst, dpos, src, spos, count, idx);
      GetBoxCopy(dst, dpos, src, spos, count, idx);
      if InBox(idx, dpos, count) {
        assert Source(idx, dpos, spos, from) == Shift(idx, dpos, spos);
      }
    }
    SameElements(a, b);
  }

  /** Inside the box the copy holds the other array's elements, outside of it nothing changes. */
  lemma GetBoxCopy<T>(dst: Grid<T>, dpos: seq<nat>, src: Grid<T>, spos: seq<nat>, count: seq<nat>, idx: seq<nat>)
    requires ValidGrid(dst) && ValidGrid(src) && InBounds(dst.shape, idx)
    requires BoxFits(dst.shape, dpos, count) && BoxFits(src.shape, spos, count)
    ensures InBox(idx, dpos, count) ==> InBounds(src.shape, Shift(idx, dpos, spos))
    ensures Get(BoxCopy(dst, dpos, src, spos, count), idx)
         == if InBox(idx, dpos, count) then Get(src, Shift(idx, dpos, spos)) else Get(dst, idx)
  {
    RowIndexInverse(dst.shape, idx);
  }

  /** Arrays of one shape that agree at every index are equal. */
  lemma SameElements<T>(a: Grid<T>, b: Grid<T>)
    requires ValidGrid(a) && ValidGrid(b) && a.shape == b.shape
    requires forall idx: seq<nat> | InBounds(a.shape, idx) :: Get(a, idx) == Get(b, idx)
    ensures a == b
  {
    forall k: nat | k < |a.cells| ensures a.cells[k] == b.cells[k] {
      RowMultiInverse(a.shape, k);
      assert Get(a, RowMulti(a.shape, k)) == Get(b, RowMulti(a.shape, k));
    }
  }

  // ----- laws

  /** Writing a box and reading it back is copying the written data, for any number of dimensions and
      any place in the buffers. */
  lemma {:induction false} ReadAfterWrite<T>(mem: Grid<T>, mpos: seq<nat>, src: Grid<T>, spos: seq<nat>,
                                             dst: Grid<T>, dpos: seq<nat>, count: seq<nat>)
    requires ValidGrid(mem) && ValidGrid(src) && ValidGrid(dst)
    requires BoxFits(mem.shape, mpos, count) && BoxFits(src.shape, spos, count) && BoxFits(dst.shape, dpos, count)
    ensures BoxCopy(dst, dpos, BoxCopy(mem, mpos, src, spos, count), mpos, count)
            == BoxCopy(dst, dpos, src, spos, count)
  {
    var written := BoxCopy(mem, mpos, src, spos, count);
    var read, copied := BoxCopy(dst, dpos, written, mpos, count), BoxCopy(dst, dpos, src, spos, count);
    forall idx: seq<nat> | InBounds(dst.shape, idx) ensures Get(read, idx) == Get(copied, idx) {
      GetBoxCopy(dst, dpos, written, mpos, count, idx);
      GetBoxCopy(dst, dpos, src, spos, count, idx);
      if InBox(idx, dpos, count) {
        var m := Shift(idx, dpos, mpos);
        GetBoxCopy(mem, mpos, src, spos, count, m);
        assert Shift(m, mpos, spos) == Shift(idx, dpos, spos);
      }
    }
    SameElements(read, copied);
  }

  predicate Disjoint(p: seq<nat>, c: seq<nat>, q: seq<nat>, e: seq<nat>) {
    |p| == |c| == |q| == |e| && exists d | 0 <= d < |p| :: p[d] + c[d] <= q[d] || q[d] + e[d] <= p[d]
  }

  /** Writes to boxes that are apart in some dimension commute. */
  lemma {:induction false} DisjointWritesCommute<T>(mem: Grid<T>, a: Grid<T>, p: seq<nat>, ap: seq<nat>, c: seq<nat>,
                                                    b: Grid<T>, q: seq<nat>, bp: seq<nat>, e: seq<nat>)
    requires ValidGrid(mem) && ValidGrid(a) && ValidGrid(b)
    requires BoxFits(mem.shape, p, c) && BoxFits(a.shape, ap, c) && BoxFits(mem.shape, q, e) && BoxFits(b.shape, bp, e)
    requires Disjoint(p, c, q, e)
    ensures BoxCopy(BoxCopy(mem, p, a, ap, c), q, b, bp, e) == BoxCopy(BoxCopy(mem, q, b, bp, e), p, a, ap, c)
  {
    var ma, mb := BoxCopy(mem, p, a, ap, c), BoxCopy(mem, q, b, bp, e);
    var x, y := BoxCopy(ma, q, b, bp, e), BoxCopy(mb, p, a, ap, c);
    forall idx: seq<nat> | InBounds(mem.shape, idx) ensures Get(x, idx) == Get(y, idx) {
      GetBoxCopy(ma, q, b, bp, e, idx);
      GetBoxCopy(mem, p, a, ap, c, idx);
      GetBoxCopy(mb, p, a, ap, c, idx);
      GetBoxCopy(mem, q, b, bp, e, idx);
    }
    SameElements(x, y);
  }

  /** A part of a region: where it starts, seen from the region's corner, and its size. */
  datatype Tile = Tile(offset: seq<nat>, count: seq<nat>)

  predicate TilesFit(count: seq<nat>, tiles: seq<Tile>) {
    forall t | t in tiles :: BoxFits(count, t.offset, t.count)
  }

  /** Every element of the region belongs to some tile. */
  ghost predicate TilesCover(count: seq<nat>, tiles: seq<Tile>) {
    forall idx: seq<nat> | InBounds(count, idx) :: InTiles(idx, tiles)
  }

  predicate InTiles(idx: seq<nat>, tiles: seq<Tile>) {
    exists t | t in tiles :: InBox(idx, t.offset, t.count)
  }

  /** One read per tile, in order. */
  function ReadTiles<T>(dst: Grid<T>, dpos: seq<nat>, src: Grid<T>, spos: seq<nat>, count: seq<nat>,
                        tiles: seq<Tile>)
      : (r: Grid<T>)
    requires ValidGrid(dst) && ValidGrid(src) && TilesFit(count, tiles)
    requires BoxFits(dst.shape, dpos, count) && BoxFits(src.shape, spos, count)
    ensures r.shape == dst.shape && ValidGrid(r)
  {
    if tiles == [] then dst
    else
      var rest, t := tiles[..|tiles| - 1], tiles[|tiles| - 1];
      BoxCopy(ReadTiles(dst, dpos, src, spos, count, rest), Add(dpos, t.offset), src, Add(spos, t.offset), t.count)
  }

  lemma {:induction false} GetReadTiles<T>(dst: Grid<T>, dpos: seq<nat>, src: Grid<T>, spos: seq<nat>, count: seq<nat>,
                                           tiles: seq<Tile>, idx: seq<nat>)
    requires ValidGrid(dst) && ValidGrid(src) && TilesFit(count, tiles)
    requires BoxFits(dst.shape, dpos, count) && BoxFits(src.shape, spos, count) && InBounds(dst.shape, idx)
    ensures InBox(idx, dpos, count) ==> InBounds(src.shape, Shift(idx, dpos, spos))
    ensures var inner := InBox(idx, dpos, count) && InTiles(Shift(idx, dpos, seq(|idx|, _ => 0)), tiles);
            Get(ReadTiles(dst, dpos, src, spos, count, tiles), idx)
            == if inner then Get(src, Shift(idx, dpos, spos)) else Get(dst, idx)
    decreases |tiles|
  {
    hide BoxCopy, Get, Product;
    if tiles != [] {
      var rest, t := tiles[..|tiles| - 1], tiles[|tiles| - 1];
      GetReadTiles(dst, dpos, src, spos, count, rest, idx);
      var before := ReadTiles(dst, dpos, src, spos, count, rest);
      GetBoxCopy(before, Add(dpos, t.offset), src, Add(spos, t.offset), t.count, idx);
      assert tiles == rest + [t];
      if InBox(idx, Add(dpos, t.offset), t.count) {
        assert InBox(idx, dpos, count);
        assert Shift(idx, Add(dpos, t.offset), Add(spos, t.offset)) == Shift(idx, dpos, spos);
      }
      if InBox(idx, dpos, count) {
        var inner := Shift(idx, dpos, seq(|idx|, _ => 0));
        assert InBox(inner, t.offset, t.count) <==> InBox(idx, Add(dpos, t.offset), t.count);
      }
    }
  }

  /** Reading a region tile by tile is reading it at once, whatever tiles cover it. */
  lemma {:induction false} TiledReadIsRead<T>(dst: Grid<T>, dpos: seq<nat>, src: Grid<T>, spos: seq<nat>,
                                              count: seq<nat>, tiles: seq<Tile>)
    requires ValidGrid(dst) && ValidGrid(src) && TilesFit(count, tiles) && TilesCover(count, tiles)
    requires BoxFits(dst.shape, dpos, count) && BoxFits(src.shape, spos, count)
    ensures ReadTiles(dst, dpos, src, spos, count, tiles) == BoxCopy(dst, dpos, src, spos, count)
  {
    var tiled, whole := ReadTiles(dst, dpos, src, spos, count, tiles), BoxCopy(dst, dpos, src, spos, count);
    forall idx: seq<nat> | InBounds(dst.shape, idx) ensures Get(tiled, idx) == Get(whole, idx) {
      GetReadTiles(dst, dpos, src, spos, count, tiles, idx);
      GetBoxCopy(dst, dpos, src, spos, count, idx);
      if InBox(idx, dpos, count) {
        assert InBounds(count, Shift(idx, dpos, seq(|idx|, _ => 0)));
      }
    }
    SameElements(tiled, whole);
  }

  /** Cutting a region in two along one dimension gives tiles that cover it. */
  lemma CutCovers(count: seq<nat>, d: nat, h: nat)
    requires d < |count| && h <= count[d]
    ensures var zero := seq(|count|, _ => 0);
            var tiles := [Tile(zero, count[d := h]), Tile(zero[d := h], count[d := count[d] - h])];
            TilesFit(count, tiles) && TilesCover(count, tiles)
  {
    var zero := seq(|count|, _ => 0);
    var tiles := [Tile(zero, count[d := h]), Tile(zero[d := h], count[d := count[d] - h])];
    forall idx: seq<nat> | InBounds(count, idx) ensures InTiles(idx, tiles) {
      if idx[d] < h {
        assert InBox(idx, tiles[0].offset, tiles[0].count);
      } else {
        assert InBox(idx, tiles[1].offset, tiles[1].count);
      }
    }
  }

  // ----- the classes

  /** A numpy array: a shape and a row-major buffer. */
  class NumpyArray<T> {
    const shape: seq<nat>
    const data: array<T>

    ghost predicate Valid() {
      data.Length == Product(shape)
    }

    ghost function Value(): (g: Grid<T>)
      requires Valid()
      reads data
      ensures ValidGrid(g)
    {
      Grid(shape, data[..])
    }

    constructor (shape: seq<nat>, data: array<T>)
      requires data.Length == Product(shape)
      ensures this.shape == shape && this.data == data && Valid()
    {
      this.shape := shape;
      this.data := data;
    }

    /** `self[box] = other[box]`. All elements are read before any is written, also when the two share
        their buffer. */
    method AssignBox(pos: seq<nat>, other: NumpyArray<T>, otherpos: seq<nat>, count: seq<nat>) returns (ok: bool)
      requires Valid() && other.Valid()
      requires |pos| == |count| == |shape| && |otherpos| == |other.shape| == |count|
      modifies data
      ensures var after := BoxAssign(old(Value()), pos, old(other.Value()), otherpos, count);
              ok == after.Just? && Value() == if ok then after.value else old(Value())
    {
      var to, from := Clipped(shape, pos, count), Clipped(other.shape, otherpos, count);
      if !Assignable(to, from) {
        return false;
      }
      forall k | 0 <= k < data.Length && InBox(RowMulti(shape, k), pos, to)
        ensures InBounds(other.shape, Source(RowMulti(shape, k), pos, otherpos, from))
        ensures RowIndex(other.shape, Source(RowMulti(shape, k), pos, otherpos, from)) < other.data.Length
      {
        SourceInBounds(RowMulti(shape, k), pos, other.shape, otherpos, to, from);
        RowIndexInverse(other.shape, Source(RowMulti(shape, k), pos, otherpos, from));
      }
      forall k | 0 <= k < data.Length && InBox(RowMulti(shape, k), pos, to) {
        data[k] := other.data[RowIndex(other.shape, Source(RowMulti(shape, k), pos, otherpos, from))];
      }
      return true;
    }
  }

  class MultiDimArrayMemory<T> {
    var memory: NumpyArray<T>

    constructor (memory: NumpyArray<T>)
      ensures this.memory == memory
    {
      this.memory := memory;
    }

    method Attach(memory: NumpyArray<T>)
      modifies this
      ensures this.memory == memory
    {
      this.memory := memory;
    }

    method Read(memorypos: seq<nat>, buffer: NumpyArray<T>, bufferpos: seq<nat>, count: seq<nat>) returns (ok: bool)
      requires memory.Valid() && buffer.Valid()
      requires |memorypos| == |count| == |memory.shape| && |bufferpos| == |buffer.shape| == |count|
      modifies buffer.data
      ensures var after := BoxAssign(old(buffer.Value()), bufferpos, old(memory.Value()), memorypos, count);
              ok == after.Just? && buffer.Value() == if ok then after.value else old(buffer.Value())
    {
      ok := buffer.AssignBox(bufferpos, memory, memorypos, count);
    }

    method Write(memorypos: seq<nat>, buffer: NumpyArray<T>, bufferpos: seq<nat>, count: seq<nat>) returns (ok: bool)
      requires memory.Valid() && buffer.Valid()
      requires |memorypos| == |count| == |memory.shape| && |bufferpos| == |buffer.shape| == |count|
      modifies memory.data
      ensures var after := BoxAssign(old(memory.Value()), memorypos, old(buffer.Value()), bufferpos, count);
              ok == after.Just? && memory.Value() == if ok then after.value else old(memory.Value())
    {
      ok := memory.AssignBox(memorypos, buffer, bufferpos, count);
    }
  }

  /** The one-dimensional memory. */
  class ArrayMemory<T> {
    var memory: array<T>

    constructor (memory: array<T>)
      ensures this.memory == memory
    {
      this.memory := memory;
    }

    method Attach(memory: array<T>)
      modifies this
      ensures this.memory == memory
    {
      this.memory := memory;
    }

    function Length(): nat
      reads this
    {
      memory.Length
    }

    method Read(memorypos: nat, buffer: array<T>, bufferpos: nat, count: nat) returns (ok: bool)
      modifies buffer
      ensures var after := SliceAssign(old(buffer[..]), bufferpos, old(memory[..]), memorypos, count);
              ok == after.Just? && buffer[..] == if ok then after.value else old(buffer[..])
    {
      ok := AssignSlice(buffer, bufferpos, memory, memorypos, count);
    }

    method Write(memorypos: nat, buffer: array<T>, bufferpos: nat, count: nat) returns (ok: bool)
      modifies memory
      ensures var after := SliceAssign(old(memory[..]), memorypos, old(buffer[..]), bufferpos, count);
              ok == after.Just? && memory[..] == if ok then after.value else old(memory[..])
    {
      ok := AssignSlice(memory, memorypos, buffer, bufferpos, count);
    }
  }

  /** `dst[dpos:dpos + count] = src[spos:spos + count]`. */
  method AssignSlice<T>(dst: array<T>, dpos: nat, src: array<T>, spos: nat, count: nat) returns (ok: bool)
    modifies dst
    ensures var after := SliceAssign(old(dst[..]), dpos, old(src[..]), spos, count);
            ok == after.Just? && dst[..] == if ok then after.value else old(dst[..])
  {
    var to, from := Clip(dst.Length, dpos, count), Clip(src.Length, spos, count);
    if from != to && from != 1 {
      return false;
    }
    forall k | 0 <= k < to {
      dst[dpos + k] := src[spos + if from == 1 then 0 else k];
    }
    return true;
  }

  /** The sequence after the slice assignment: the slice cut off at the end of `src` replaces the one cut off
      at the end of `dst`, if they have one length or the former has one element, which is then repeated. */
  function SliceAssign<T>(dst: seq<T>, dpos: nat, src: seq<T>, spos: nat, count: nat): (r: Option<seq<T>>)
    ensures r.Just? ==> |r.value| == |dst|
  {
    var to, from := Clip(|dst|, dpos, count), Clip(|src|, spos, count);
    if from != to && from != 1 then Nothing
    else if to == 0 then Just(dst)
    else
      var taken := if from == 1 then seq(to, _ => src[spos]) else src[spos..spos + to];
      Just(dst[..dpos] + taken + dst[dpos + to..])
  }

  /** With one dimension the box assignment is the slice assignment. */
  lemma OneDimensionalBox<T>(dst: seq<T>, dpos: nat, src: seq<T>, spos: nat, count: nat)
    ensures ValidGrid(Grid([|dst|], dst)) && ValidGrid(Grid([|src|], src))
    ensures var box := BoxAssign(Grid([|dst|], dst), [dpos], Grid([|src|], src), [spos], [count]);
            SliceAssign(dst, dpos, src, spos, count) == if box.Just? then Just(box.value.cells) else Nothing
  {
    hide BoxAssign, RowIndex, RowMulti, Product;
    var d, s := Grid([|dst|], dst), Grid([|src|], src);
    ProductOne(|dst|);
    ProductOne(|src|);
    OneDimensionalAssignable(|dst|, dpos, |src|, spos, count);
    var box, slice := BoxAssign(d, [dpos], s, [spos], [count]), SliceAssign(dst, dpos, src, spos, count);
    BoxAssignable(d, [dpos], s, [spos], [count]);
    if slice.Just? {
      forall k: nat | k < |dst| ensures box.value.cells[k] == slice.value[k] {
        OneDimensionalElement(dst, dpos, src, spos, count, k);
      }
      assert box.value.cells == slice.value;
    }
  }

  lemma BoxAssignable<T>(dst: Grid<T>, dpos: seq<nat>, src: Grid<T>, spos: seq<nat>, count: seq<nat>)
    requires ValidGrid(dst) && ValidGrid(src) && |dpos| == |count| == |dst.shape| && |spos| == |src.shape| == |count|
    ensures BoxAssign(dst, dpos, src, spos, count).Just?
       <==> Assignable(Clipped(dst.shape, dpos, count), Clipped(src.shape, spos, count))
  {
  }

  lemma OneDimensionalAssignable(n: nat, dpos: nat, m: nat, spos: nat, count: nat)
    ensures Assignable(Clipped([n], [dpos], [count]), Clipped([m], [spos], [count]))
       <==> Clip(m, spos, count) == Clip(n, dpos, count) || Clip(m, spos, count) == 1
  {
    var to, from := Clipped([n], [dpos], [count]), Clipped([m], [spos], [count]);
    assert to[0] == Clip(n, dpos, count) && from[0] == Clip(m, spos, count);
  }

  lemma OneDimensionalElement<T>(dst: seq<T>, dpos: nat, src: seq<T>, spos: nat, count: nat, k: nat)
    requires ValidGrid(Grid([|dst|], dst)) && ValidGrid(Grid([|src|], src)) && k < |dst|
    requires BoxAssign(Grid([|dst|], dst), [dpos], Grid([|src|], src), [spos], [count]).Just?
    requires SliceAssign(dst, dpos, src, spos, count).Just?
    ensures BoxAssign(Grid([|dst|], dst), [dpos], Grid([|src|], src), [spos], [count]).value.cells[k]
         == SliceAssign(dst, dpos, src, spos, count).value[k]
  {
    hide BoxAssign, RowIndex, RowMulti, Product;
    var d, s := Grid([|dst|], dst), Grid([|src|], src);
    OneDimensionalMulti(|dst|, k);
    GetBoxAssign(d, [dpos], s, [spos], [count], [k]);
    if InBox([k], [dpos], [count]) {
      var from := Clipped([|src|], [spos], [count]);
      var at := spos + if from[0] == 1 then 0 else k - dpos;
      assert Source([k], [dpos], [spos], from) == [at];
      OneDimensionalMulti(|src|, at);
    }
  }

  lemma OneDimensionalMulti(n: nat, k: nat)
    requires k < n
    ensures k < Product([n]) && RowMulti([n], k) == [k] && RowIndex([n], [k]) == k && InBounds([n], [k])
  {
    ProductOne(n);
    assert [n][1..] == [] && [k][1..] == [] && Product([]) == 1;
    assert RowIndex([n], [k]) == k * Product([]) + RowIndex([], []);
  }
}
