/** The cell arithmetic of `GridHasher`: packing a pair of 32-bit cell
    coordinates into one 64-bit key, and turning a world coordinate into a cell
    coordinate. Signed integers are handled as their two's-complement bit
    patterns (`bv32`, `bv64`), which is what the shift and the bitwise or in
    `Hash` operate on. */
module GridHashing {

  newtype int32 = v: int | -0x8000_0000 <= v < 0x8000_0000

  /** The bit pattern of an `int32` is negative when its sign bit is set. */
  predicate IsNegative(v: bv32): (negative: bool) {
    v >= 0x8000_0000
  }

  /** The implicit conversion of an `int32` operand to `int64`: the sign bit
      is copied into the 32 high bits. */
  function SignExtend(v: bv32): (wide: bv64) {
    if IsNegative(v) then (v as bv64) | 0xFFFF_FFFF_0000_0000 else v as bv64
  }

  /** C++ conversion of a float to `int32`: the fraction is dropped, rounding
      toward zero (the conversion is undefined outside the `int32` range). */
  function Truncate(q: real): (r: int)
    ensures q >= 0.0 ==> 0 <= r && r as real <= q < r as real + 1.0
    ensures q < 0.0 ==> r <= 0 && r as real - 1.0 < q <= r as real
  {
    if q >= 0.0 then q.Floor else -((-q).Floor)
  }

  predicate FitsInt32(v: int): (fits: bool) {
    -0x8000_0000 <= v < 0x8000_0000
  }

  /** A hasher for a uniform grid of square cells `cellSize` wide. The hasher
      is a value: nothing changes its cell size after construction. */
  datatype GridHasher = GridHasher(cellSize: real)
  {
    /** The key of cell (x, y): x in the high 32 bits, or-ed with y widened
        to 64 bits. For non-negative y that is the plain packing of the two
        halves; a negative y fills the high half with ones. */
    function Hash(x: bv32, y: bv32): (key: bv64)
      ensures !IsNegative(y) ==> key == PackedKey(x, y)
      ensures IsNegative(y) ==> key >> 32 == 0xFFFF_FFFF
    {
      ((x as bv64) << 32) | SignExtend(y)
    }

    /** The cell coordinate of a world coordinate: the quotient by the cell
        size, truncated toward zero. */
    function GridCoord(value: real): (c: int32)
      requires cellSize != 0.0
      requires FitsInt32(Truncate(value / cellSize))
      ensures value / cellSize >= 0.0 ==> c >= 0 && c as real <= value / cellSize < c as real + 1.0
      ensures value / cellSize < 0.0 ==> c <= 0 && c as real - 1.0 < value / cellSize <= c as real
    {
      Truncate(value / cellSize) as int32
    }
  }

  /** With y non-negative the key splits back into x and y. */
  lemma HashSplits(g: GridHasher, x: bv32, y: bv32)
    requires !IsNegative(y)
    ensures (g.Hash(x, y) >> 32) as bv32 == x
    ensures (g.Hash(x, y) & 0xFFFF_FFFF) as bv32 == y
  {
  }

  /** ... so for non-negative y distinct cells get distinct keys. */
  lemma HashInjectiveNonNegative(g: GridHasher, x1: bv32, y1: bv32, x2: bv32, y2: bv32)
    requires !IsNegative(y1) && !IsNegative(y2)
    ensures g.Hash(x1, y1) == g.Hash(x2, y2) <==> x1 == x2 && y1 == y2
  {
    HashSplits(g, x1, y1);
    HashSplits(g, x2, y2);
  }

  /** Hash(x, -1) is -1 whatever x is. */
  lemma HashMinusOne(g: GridHasher, x: bv32)
    ensures g.Hash(x, 0xFFFF_FFFF) == 0xFFFF_FFFF_FFFF_FFFF
  {
  }

  /** Two cells of the same row with negative y share a key: (0, -1) and
      (1, -1). */
  lemma HashCollides(g: GridHasher)
    ensures g.Hash(0, 0xFFFF_FFFF) == g.Hash(1, 0xFFFF_FFFF)
  {
    HashMinusOne(g, 0);
    HashMinusOne(g, 1);
  }

  /** The key the packing evidently intends: y reinterpreted as an unsigned
      32-bit value before it is or-ed in, so both halves survive. */
  function PackedKey(x: bv32, y: bv32): (key: bv64) {
    ((x as bv64) << 32) | (y as bv64)
  }

  /** The corrected key splits back into x and y. */
  lemma PackedKeySplits(x: bv32, y: bv32)
    ensures (PackedKey(x, y) >> 32) as bv32 == x
    ensures (PackedKey(x, y) & 0xFFFF_FFFF) as bv32 == y
  {
  }

  /** ... so it is injective on every pair of cells. */
  lemma PackedKeyInjective(x1: bv32, y1: bv32, x2: bv32, y2: bv32)
    ensures PackedKey(x1, y1) == PackedKey(x2, y2) <==> x1 == x2 && y1 == y2
  {
    PackedKeySplits(x1, y1);
    PackedKeySplits(x2, y2);
  }

  /** A factor of a positive product with a positive cofactor is
      positive. */
  lemma PositiveFactor(a: real, c: real)
    requires c > 0.0 && a * c > 0.0
    ensures a > 0.0
  {
  }

  /** Truncation is not flooring: every coordinate strictly within one cell
      size of zero, on either side, lands in cell 0. */
  lemma GridCoordNearZero(g: GridHasher, value: real)
    requires g.cellSize > 0.0 && -g.cellSize < value < g.cellSize
    ensures Truncate(value / g.cellSize) == 0 && g.GridCoord(value) == 0
  {
    var c := g.cellSize;
    var q := value / c;
    var below, above := 1.0 - q, 1.0 + q;
    assert q * c == value;
    assert below * c == c - value;
    assert above * c == c + value;
    PositiveFactor(below, c);
    PositiveFactor(above, c);
  }
}
