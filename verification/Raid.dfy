/** RAID 4 and RAID 5 address mapping and write planning of file-raid/raid.py. */
module Raid {
  import opened Arithmetic

  /** RAID 4, and RAID 5 left-asymmetric and left-symmetric. */
  datatype Layout = RAID4 | LA | LS

  datatype Geometry = Geometry(numDisks: nat, chunkSize: nat, layout: Layout)

  predicate Good(g: Geometry) { g.numDisks >= 2 && g.chunkSize >= 1 }

  function Columns(g: Geometry): int { g.numDisks - 1 }

  function BlocksInStripe(g: Geometry): int { (g.numDisks - 1) * g.chunkSize }

  /** The disk that holds the parity of stripe `s`. */
  function ParityDisk(g: Geometry, s: nat): int
    requires Good(g)
  {
    if g.layout.RAID4? then g.numDisks - 1 else (g.numDisks - 1) - s % g.numDisks
  }

  /** Where the layout puts the `j`-th data chunk of stripe `s`. */
  function DataDisk(g: Geometry, s: nat, j: nat): int
    requires Good(g)
  {
    match g.layout
    case RAID4 => j
    case LA => if j >= ParityDisk(g, s) then j + 1 else j
    case LS => (j - s % g.numDisks) % g.numDisks
  }

  /** bmap4 and bmap5: disk and offset of a logical block. */
  function Bmap(g: Geometry, bnum: nat): (int, int)
    requires Good(g)
  {
    var cnum, coff := bnum / g.chunkSize, bnum % g.chunkSize;
    (DataDisk(g, cnum / Columns(g), cnum % Columns(g)), (cnum / Columns(g)) * g.chunkSize + coff)
  }

  /** pmap4 and pmap5: the latter maps the stripe's first block and looks at its parity disk. */
  function Pmap(g: Geometry, snum: nat): int
    requires Good(g)
  {
    if g.layout.RAID4? then g.numDisks - 1
    else
      StripeNonNegative(g, snum);
      ParityDisk(g, ((snum * BlocksInStripe(g)) / g.chunkSize) / Columns(g))
  }

  lemma StripeNonNegative(g: Geometry, s: nat)
    requires Good(g)
    ensures s * BlocksInStripe(g) >= 0 && ((s * BlocksInStripe(g)) / g.chunkSize) / Columns(g) >= 0
  {
    MulNonNegative(g.numDisks - 1, g.chunkSize);
    MulNonNegative(s, BlocksInStripe(g));
    Quotient(s * BlocksInStripe(g), g.chunkSize);
    Quotient((s * BlocksInStripe(g)) / g.chunkSize, Columns(g));
  }

  lemma Quotient(x: int, m: int)
    requires x >= 0 && m >= 1
    ensures x / m >= 0
  {
  }

  // ---------- coordinates ----------

  /** The block in stripe `s`, data chunk `j`, at offset `k` in the chunk. */
  function Block(g: Geometry, s: nat, j: nat, k: nat): nat
    requires Good(g)
  {
    (s * Columns(g) + j) * g.chunkSize + k
  }

  predicate InStripe(g: Geometry, j: int, k: int) { 0 <= j < Columns(g) && 0 <= k < g.chunkSize }

  /** Every block has coordinates, and only one set. */
  lemma Coordinates(g: Geometry, bnum: nat) returns (s: nat, j: nat, k: nat)
    requires Good(g)
    ensures InStripe(g, j, k) && bnum == Block(g, s, j, k)
  {
    var cnum := bnum / g.chunkSize;
    s, j, k := cnum / Columns(g), cnum % Columns(g), bnum % g.chunkSize;
    assert cnum == s * Columns(g) + j;
    assert bnum == cnum * g.chunkSize + k;
  }

  lemma BmapAt(g: Geometry, s: nat, j: nat, k: nat)
    requires Good(g) && InStripe(g, j, k)
    ensures Bmap(g, Block(g, s, j, k)) == (DataDisk(g, s, j), s * g.chunkSize + k)
    ensures Block(g, s, j, k) / g.chunkSize == s * Columns(g) + j
  {
    DivModOf(Block(g, s, j, k), g.chunkSize, s * Columns(g) + j, k);
    DivModOf(s * Columns(g) + j, Columns(g), s, j);
  }

  lemma Regroup(s: int, c: int, j: int, z: int)
    ensures (s * c + j) * z == s * (c * z) + j * z
  {
  }

  lemma BlockIs(g: Geometry, s: nat, j: nat, k: nat)
    requires Good(g)
    ensures Block(g, s, j, k) == s * BlocksInStripe(g) + j * g.chunkSize + k
  {
    Regroup(s, g.numDisks - 1, j, g.chunkSize);
  }

  lemma ChunkInStripe(g: Geometry, j: nat, k: nat)
    requires Good(g) && InStripe(g, j, k)
    ensures 0 <= j * g.chunkSize + k < BlocksInStripe(g)
  {
    MulMonotone(j, g.numDisks - 1, g.chunkSize);
    MulNonNegative(j, g.chunkSize);
  }

  lemma StripeOf(g: Geometry, s: nat, j: nat, k: nat)
    requires Good(g) && InStripe(g, j, k)
    ensures s * BlocksInStripe(g) <= Block(g, s, j, k) < s * BlocksInStripe(g) + BlocksInStripe(g)
    ensures Block(g, s, j, k) == s * BlocksInStripe(g) + j * g.chunkSize + k
  {
    hide *;
    BlockIs(g, s, j, k);
    ChunkInStripe(g, j, k);
  }

  /** pmap5 really names the parity disk of the stripe it is given. */
  lemma PmapIsParityDisk(g: Geometry, s: nat)
    requires Good(g)
    ensures Pmap(g, s) == ParityDisk(g, s)
  {
    StripeOf(g, s, 0, 0);
    BmapAt(g, s, 0, 0);
    DivModOf(s * Columns(g), Columns(g), s, 0);
  }

  // ---------- one stripe: data chunks and parity use each disk once ----------

  /** The chunk of stripe `s` that disk `d` holds, if it does not hold the parity. */
  function ChunkOn(g: Geometry, s: nat, d: nat): int
    requires Good(g)
  {
    match g.layout
    case RAID4 => d
    case LA => if d > ParityDisk(g, s) then d - 1 else d
    case LS => (d + s % g.numDisks) % g.numDisks
  }

  lemma StripeBijection(g: Geometry, s: nat, j: nat, d: nat)
    requires Good(g) && j < Columns(g) && d < g.numDisks
    ensures 0 <= ParityDisk(g, s) < g.numDisks
    ensures 0 <= DataDisk(g, s, j) < g.numDisks && DataDisk(g, s, j) != ParityDisk(g, s)
    ensures ChunkOn(g, s, DataDisk(g, s, j)) == j
    ensures d != ParityDisk(g, s) ==> 0 <= ChunkOn(g, s, d) < Columns(g) && DataDisk(g, s, ChunkOn(g, s, d)) == d
  {
    var n, col := g.numDisks, s % g.numDisks;
    if g.layout.LS? {
      if j < col {
        DivModOf(j - col, n, -1, j - col + n);
        DivModOf(j + n, n, 1, j);
      } else {
        DivModOf(j - col, n, 0, j - col);
        DivModOf(j, n, 0, j);
      }
      if d + col < n {
        DivModOf(d + col, n, 0, d + col);
        DivModOf(d, n, 0, d);
      } else {
        DivModOf(d + col, n, 1, d + col - n);
        DivModOf(d - n, n, -1, d);
      }
    }
  }

  // ---------- the whole array ----------

  /** The logical block stored at (disk, offset), unless that is a parity block. */
  function Unmap(g: Geometry, disk: nat, off: nat): int
    requires Good(g)
  {
    ((off / g.chunkSize) * Columns(g) + ChunkOn(g, off / g.chunkSize, disk)) * g.chunkSize + off % g.chunkSize
  }

  predicate IsParity(g: Geometry, disk: nat, off: nat)
    requires Good(g)
  {
    disk == Pmap(g, off / g.chunkSize)
  }

  lemma MapThenUnmap(g: Geometry, bnum: nat)
    requires Good(g)
    ensures var (d, o) := Bmap(g, bnum); 0 <= d < g.numDisks && o >= 0 && !IsParity(g, d, o) && Unmap(g, d, o) == bnum
  {
    var s, j, k := Coordinates(g, bnum);
    BmapAt(g, s, j, k);
    MulNonNegative(s, g.chunkSize);
    DivModOf(s * g.chunkSize + k, g.chunkSize, s, k);
    PmapIsParityDisk(g, s);
    StripeBijection(g, s, j, 0);
  }

  lemma UnmapThenMap(g: Geometry, disk: nat, off: nat)
    requires Good(g) && disk < g.numDisks && !IsParity(g, disk, off)
    ensures Unmap(g, disk, off) >= 0 && Bmap(g, Unmap(g, disk, off)) == (disk, off)
  {
    var t, m := off / g.chunkSize, off % g.chunkSize;
    Quotient(off, g.chunkSize);
    PmapIsParityDisk(g, t);
    StripeBijection(g, t, 0, disk);
    var j := ChunkOn(g, t, disk);
    BmapAt(g, t, j, m);
    assert Unmap(g, disk, off) == Block(g, t, j, m);
    assert off == t * g.chunkSize + m;
  }

  /** Every (disk, offset) is either the parity of its row or holds exactly one data block, and every
      data block is held by exactly one (disk, offset), never a parity one. */
  lemma MappingIsBijective(g: Geometry, bnum: nat, disk: nat, off: nat)
    requires Good(g) && disk < g.numDisks
    ensures var (d, o) := Bmap(g, bnum); 0 <= d < g.numDisks && o >= 0 && !IsParity(g, d, o) && Unmap(g, d, o) == bnum
    ensures !IsParity(g, disk, off) ==> Unmap(g, disk, off) >= 0 && Bmap(g, Unmap(g, disk, off)) == (disk, off)
  {
    hide *;
    MapThenUnmap(g, bnum);
    if !IsParity(g, disk, off) { UnmapThenMap(g, disk, off); }
  }

  lemma NoTwoBlocksCollide(g: Geometry, a: nat, b: nat)
    requires Good(g) && Bmap(g, a) == Bmap(g, b)
    ensures a == b
  {
    MappingIsBijective(g, a, 0, 0);
    MappingIsBijective(g, b, 0, 0);
  }

  // ---------- where the layouts put parity and data ----------

  /** The parity of RAID 4 is on the last disk. That of RAID 5 starts there and moves one disk to the front with every
      stripe, from the first disk back to the last. */
  lemma ParityMoves(g: Geometry, s: nat)
    requires Good(g)
    ensures Pmap(g, 0) == g.numDisks - 1 && 0 <= Pmap(g, s) < g.numDisks
    ensures Pmap(g, s + 1) ==
      if g.layout.RAID4? then Pmap(g, s) else if Pmap(g, s) == 0 then g.numDisks - 1 else Pmap(g, s) - 1
  {
    PmapIsParityDisk(g, 0);
    PmapIsParityDisk(g, s);
    PmapIsParityDisk(g, s + 1);
    DivModOf(0, g.numDisks, 0, 0);
    var r := s % g.numDisks;
    if r + 1 == g.numDisks {
      DivModOf(s + 1, g.numDisks, s / g.numDisks + 1, 0);
    } else {
      DivModOf(s + 1, g.numDisks, s / g.numDisks, r + 1);
    }
  }

  /** RAID 4 and left-asymmetric RAID 5: within a stripe a later chunk is on a later disk. */
  lemma ChunksAscend(g: Geometry, a: nat, b: nat)
    requires Good(g) && !g.layout.LS?
    requires a / g.chunkSize < b / g.chunkSize
      && (a / g.chunkSize) / Columns(g) == (b / g.chunkSize) / Columns(g)
    ensures Bmap(g, a).0 < Bmap(g, b).0
  {
    var s, i, k := Coordinates(g, a);
    var t, j, l := Coordinates(g, b);
    BmapAt(g, s, i, k);
    BmapAt(g, t, j, l);
    DivModOf(s * Columns(g) + i, Columns(g), s, i);
    DivModOf(t * Columns(g) + j, Columns(g), t, j);
  }

  /** Left-symmetric RAID 5 puts the chunks on the disks in turn. */
  lemma ChunksInTurn(g: Geometry, bnum: nat)
    requires Good(g) && g.layout.LS?
    ensures Bmap(g, bnum).0 == (bnum / g.chunkSize) % g.numDisks
  {
    hide Bmap, Block, DataDisk;
    var s, j, k := Coordinates(g, bnum);
    BmapAt(g, s, j, k);
    InTurnAt(g, s, j);
  }

  lemma InTurnAt(g: Geometry, s: nat, j: nat)
    requires Good(g) && g.layout.LS? && j < Columns(g)
    ensures DataDisk(g, s, j) == (s * Columns(g) + j) % g.numDisks
  {
    InTurn(s, j, g.numDisks, s / g.numDisks, s % g.numDisks);
  }

  lemma InTurn(s: nat, j: nat, n: nat, w: int, col: int)
    requires n >= 2 && j < n - 1 && s == w * n + col && 0 <= col < n
    ensures (j - col) % n == (s * (n - 1) + j) % n
  {
    Unfold(s, n, w, col);
    if j >= col {
      SameRemainder(s * (n - 1) + j, j - col, n, s - w, 0, j - col);
    } else {
      SameRemainder(s * (n - 1) + j, j - col, n, s - w - 1, -1, j - col + n);
    }
  }

  lemma SameRemainder(x: int, y: int, n: nat, p: int, q: int, r: int)
    requires x == p * n + r && y == q * n + r && 0 <= r < n
    ensures x % n == y % n
  {
    DivModOf(x, n, p, r);
    DivModOf(y, n, q, r);
  }

  lemma Unfold(s: int, n: int, w: int, col: int)
    requires s == w * n + col
    ensures s * (n - 1) == (s - w) * n - col && (s - w - 1) * n == (s - w) * n - n
  {
    assert s * (n - 1) == s * n - s;
    assert (s - w) * n == s * n - w * n;
  }

  /** So any numDisks consecutive chunks can be read from different disks. */
  lemma ConsecutiveChunks(g: Geometry, a: nat, b: nat)
    requires Good(g) && g.layout.LS? && a / g.chunkSize < b / g.chunkSize < a / g.chunkSize + g.numDisks
    ensures Bmap(g, a).0 != Bmap(g, b).0
  {
    ChunksInTurn(g, a);
    ChunksInTurn(g, b);
    Apart(a / g.chunkSize, b / g.chunkSize, g.numDisks);
  }

  lemma Apart(c: nat, d: nat, n: nat)
    requires c < d < c + n
    ensures c % n != d % n
  {
    var q, r := c / n, c % n;
    assert c == q * n + r;
    if r + (d - c) < n {
      DivModOf(d, n, q, r + (d - c));
    } else {
      assert (q + 1) * n == q * n + n;
      DivModOf(d, n, q + 1, r + (d - c) - n);
    }
  }

  /** The offset on the disk is in the stripe's row of chunks, at the block's place in its chunk. */
  lemma OffsetInRow(g: Geometry, bnum: nat)
    requires Good(g)
    ensures Bmap(g, bnum).1 / g.chunkSize == (bnum / g.chunkSize) / Columns(g)
    ensures Bmap(g, bnum).1 % g.chunkSize == bnum % g.chunkSize
  {
    var s, j, k := Coordinates(g, bnum);
    BmapAt(g, s, j, k);
    DivModOf(s * Columns(g) + j, Columns(g), s, j);
    DivModOf(s * g.chunkSize + k, g.chunkSize, s, k);
    DivModOf(Block(g, s, j, k), g.chunkSize, s * Columns(g) + j, k);
  }
}
