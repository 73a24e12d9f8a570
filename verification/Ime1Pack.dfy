/** How one K block of each operand is packed for the IME1 m8b kernels. */
module Ime1Pack {
  import opened BitArithmetic
  import opened Quantized
  import opened Ime1Dot
  import opened Ime1Kernel

  /** `kPackedAChunkOrder`. */
  const CHUNK_ORDER: seq<nat> := [0, 1, 4, 5, 2, 3, 6, 7]

  /** Staging form of eight activation rows: one `quantize_a_4row_i8` block for
      each half, and the eight scales. */
  function StageBlock(rows: seq<Q8>): (a: ABlock)
    requires |rows| == 8
    ensures |a.qs| == 256 && |a.d| == 8
  {
    ABlock(QuantizeA4(Half(rows, 0)) + QuantizeA4(Half(rows, 1)), seq(8, m requires 0 <= m < 8 => rows[m].d))
  }

  /** Chunk `c` of the packed block is the source chunk its place names. */
  ghost predicate ChunkCopied(qs: seq<Int8>, source: seq<Int8>, c: nat)
    requires |source| == 256 && c < 8
  {
    32 * c + 32 <= |qs| && qs[32 * c..32 * c + 32] == SourceChunk(source, c)
  }

  function SourceChunk(source: seq<Int8>, c: nat): (r: seq<Int8>)
    requires |source| == 256 && c < 8
    ensures |r| == 32
  {
    var from := CHUNK_ORDER[c];
    source[32 * from..32 * from + 32]
  }

  /** Copies the 32-byte chunks in `kPackedAChunkOrder`. */
  method ReorderChunks(source: ABlock) returns (packed: ABlock)
    requires |source.qs| == 256
    ensures packed.d == source.d && |packed.qs| == 256 && forall c: nat :: c < 8 ==>
              ChunkCopied(packed.qs, source.qs, c)
  {
    var qs: seq<Int8> := [];
    for packedChunk := 0 to 8
      invariant |qs| == 32 * packedChunk && forall c: nat :: c < packedChunk ==> ChunkCopied(qs, source.qs, c)
    {
      var chunk := SourceChunk(source.qs, packedChunk);
      forall c: nat | c < packedChunk ensures ChunkCopied(qs + chunk, source.qs, c) {
        assert ChunkCopied(qs, source.qs, c);
        assert (qs + chunk)[32 * c..32 * c + 32] == qs[32 * c..32 * c + 32];
      }
      qs := qs + chunk;
    }
    packed := ABlock(qs, source.d);
  }

  lemma ChunkOrder(h: nat, w: nat)
    requires h < 2 && w < 4
    ensures Chunk(h, w) < 8 && CHUNK_ORDER[Chunk(h, w)] == 4 * h + w
  {
    ChunkIs(h, w / 2, w % 2);
  }

  lemma StagedChunk(rows: seq<Q8>, h: nat, w: nat)
    requires |rows| == 8 && h < 2 && w < 4
    ensures ARegister(StageBlock(rows).qs[32 * (4 * h + w)..32 * (4 * h + w) + 32], Half(rows, h), w)
  {
    QuantizeA4Register(Half(rows, h), w);
    ConcatSlice(QuantizeA4(Half(rows, 0)), QuantizeA4(Half(rows, 1)), h, 32 * w);
  }

  lemma ConcatSlice(x: seq<Int8>, y: seq<Int8>, h: nat, at: nat)
    requires |x| == |y| == 128 && h < 2 && at + 32 <= 128
    ensures (x + y)[128 * h + at..128 * h + at + 32] == (if h == 0 then x else y)[at..at + 32]
  {}

  /** Reordered staging blocks are what the kernels read. */
  method PackA(rows: seq<Q8>) returns (packed: ABlock)
    requires |rows| == 8
    ensures APacked(packed, rows)
  {
    packed := ReorderChunks(StageBlock(rows));
    forall h: nat, w: nat | h < 2 && w < 4 ensures ChunkPacked(packed.qs, rows, h, w) {
      StagedChunk(rows, h, w);
      ChunkOrder(h, w);
      var c := Chunk(h, w);
      assert ChunkCopied(packed.qs, StageBlock(rows).qs, c);
    }
  }

  /** Bytes already written before column `column`, byte `j`. */
  ghost predicate Packed(qs: seq<Byte>, columns: seq<Q4>, column: nat, j: nat) {
    && |qs| == 16 * |columns|
    && forall plane: nat, n: nat, i: nat ::
         plane < 2 && n < |columns| && i < 8 && (n < column || (n == column && i < j)) ==>
             PackedAt(qs, columns, plane, n, i)
  }

  /** The nibble packing of one K block of columns, in two planes: `pack_q4_n16`
      for sixteen, and the same loops for the other tile widths. */
  method PackPlanes(columns: seq<Q4>) returns (packed: seq<Byte>)
    ensures PackedColumns(packed, columns)
  {
    var qs := new Byte[16 * |columns|];
    for column := 0 to |columns|
      invariant Packed(qs[..], columns, column, 0)
    {
      for j := 0 to 8
        invariant Packed(qs[..], columns, column, j)
      {
        PackBytes(qs, columns, column, j);
      }
    }
    packed := qs[..];
  }

  /** `pack_q4_n16`. */
  method PackQ4N16(rows: seq<Q4>) returns (output: BBlock)
    requires |rows| == 16
    ensures BPacked(output, rows)
  {
    var qs := PackPlanes(rows);
    output := BBlock(qs, seq(16, n requires 0 <= n < 16 => rows[n].d));
  }

  method PackBytes(qs: array<Byte>, columns: seq<Q4>, column: nat, j: nat)
    requires column < |columns| && j < 8 && qs.Length == 16 * |columns| && Packed(qs[..], columns, column, j)
    modifies qs
    ensures Packed(qs[..], columns, column, j + 1)
  {
    ghost var before := qs[..];
    var x: int, y: int := columns[column].qs[j], columns[column].qs[j + 8];
    qs[column * 8 + j] := TwoNibbles(x % 16, y % 16);
    qs[8 * |columns| + column * 8 + j] := TwoNibbles(x / 16, y / 16);
    forall plane: nat, n: nat, i: nat | plane < 2 && n < |columns| && i < 8
        && (n < column || (n == column && i < j + 1))
      ensures PackedAt(qs[..], columns, plane, n, i)
    {
      PackedBytePosition(|columns|, plane, n, i, column, j);
      if (n, i) != (column, j) { assert PackedAt(before, columns, plane, n, i); }
    }
  }

  lemma PackedBytePosition(count: nat, plane: nat, n: nat, i: nat, column: nat, j: nat)
    requires plane < 2 && n < count && i < 8 && column < count && j < 8
    ensures PlaneBase(count, plane) + 8 * n + i < 16 * count
    ensures (n, i) != (column, j) ==>
              PlaneBase(count, plane) + 8 * n + i != 8 * column + j
                  && PlaneBase(count, plane) + 8 * n + i != 8 * count + 8 * column + j
  {}
}
