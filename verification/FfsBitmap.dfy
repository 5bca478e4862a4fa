/** Group bitmaps of file-ffs/ffs.py: counting free cells and marking them. */
module FfsBitmap {

  /** A bitmap cell: free, or holding the number of the inode that uses it. */
  datatype Cell = Free | Used(inode: int)

  type Row = seq<Cell>
  type Bitmap = seq<Row>

  predicate Shape(b: Bitmap, groups: nat, perGroup: nat) {
    |b| == groups && forall g :: 0 <= g < groups ==> |b[g]| == perGroup
  }

  function One(c: Cell): nat { if c.Free? then 1 else 0 }

  function FreeInRow(row: Row): nat {
    if row == [] then 0 else FreeInRow(row[..|row| - 1]) + One(row[|row| - 1])
  }

  function FreeTotal(b: Bitmap): nat {
    if b == [] then 0 else FreeTotal(b[..|b| - 1]) + FreeInRow(b[|b| - 1])
  }

  function Set(b: Bitmap, g: nat, i: nat, c: Cell): Bitmap
    requires g < |b| && i < |b[g]|
  {
    b[g := b[g][i := c]]
  }

  ghost predicate Full(row: Row) { forall i :: 0 <= i < |row| ==> row[i].Used? }

  lemma {:induction false} SetInRow(row: Row, i: nat, inode: int)
    requires i < |row| && row[i].Free?
    ensures FreeInRow(row[i := Used(inode)]) == FreeInRow(row) - 1
  {
    var n, row' := |row| - 1, row[i := Used(inode)];
    if i < n {
      SetInRow(row[..n], i, inode);
      assert row'[..n] == row[..n][i := Used(inode)];
    } else {
      assert row'[..n] == row[..n];
    }
  }

  /** Marking a free cell takes exactly one from the free count. */
  lemma {:induction false} SetInTotal(b: Bitmap, g: nat, i: nat, inode: int)
    requires g < |b| && i < |b[g]| && b[g][i].Free?
    ensures FreeTotal(Set(b, g, i, Used(inode))) == FreeTotal(b) - 1
  {
    var n, b' := |b| - 1, Set(b, g, i, Used(inode));
    if g < n {
      SetInTotal(b[..n], g, i, inode);
      assert b'[..n] == Set(b[..n], g, i, Used(inode));
    } else {
      SetInRow(b[g], i, inode);
      assert b'[..n] == b[..n];
    }
  }

  lemma {:induction false} KeptInRow(row: Row, i: nat, inode: int)
    requires i < |row| && row[i].Used?
    ensures FreeInRow(row[i := Used(inode)]) == FreeInRow(row)
  {
    var n, row' := |row| - 1, row[i := Used(inode)];
    if i < n {
      KeptInRow(row[..n], i, inode);
      assert row'[..n] == row[..n][i := Used(inode)];
    } else {
      assert row'[..n] == row[..n];
    }
  }

  /** Marking a used cell again, for another inode, takes nothing from the free count. */
  lemma {:induction false} KeptInTotal(b: Bitmap, g: nat, i: nat, inode: int)
    requires g < |b| && i < |b[g]| && b[g][i].Used?
    ensures FreeTotal(Set(b, g, i, Used(inode))) == FreeTotal(b)
  {
    var n, b' := |b| - 1, Set(b, g, i, Used(inode));
    if g < n {
      KeptInTotal(b[..n], g, i, inode);
      assert b'[..n] == Set(b[..n], g, i, Used(inode));
    } else {
      KeptInRow(b[g], i, inode);
      assert b'[..n] == b[..n];
    }
  }

  lemma {:induction false} FullRow(row: Row)
    ensures FreeInRow(row) == 0 <==> Full(row)
  {
    if row != [] {
      var n := |row| - 1;
      FullRow(row[..n]);
      assert Full(row) <==> Full(row[..n]) && row[n].Used?;
    }
  }

  lemma {:induction false} NoneFree(b: Bitmap)
    requires forall g :: 0 <= g < |b| ==> FreeInRow(b[g]) == 0
    ensures FreeTotal(b) == 0
  {
    if b != [] { NoneFree(b[..|b| - 1]); }
  }

  /** One more row counted from the front. */
  lemma TotalStep(b: Bitmap, g: nat)
    requires g < |b|
    ensures FreeTotal(b[..g + 1]) == FreeTotal(b[..g]) + FreeInRow(b[g])
  {
    assert b[..g + 1][..g] == b[..g];
  }

  lemma RowStep(row: Row, i: nat)
    requires i < |row|
    ensures FreeInRow(row[..i + 1]) == FreeInRow(row[..i]) + One(row[i])
  {
    assert row[..i + 1][..i] == row[..i];
  }

  lemma {:induction false} RowTotal(b: Bitmap, g: nat)
    requires g < |b|
    ensures FreeInRow(b[g]) <= FreeTotal(b)
  {
    if g < |b| - 1 { RowTotal(b[..|b| - 1], g); }
  }

  // ---------- a fresh bitmap ----------

  lemma {:induction false} FreshRow(row: Row)
    requires forall i :: 0 <= i < |row| ==> row[i].Free?
    ensures FreeInRow(row) == |row|
  {
    if row != [] { FreshRow(row[..|row| - 1]); }
  }

  lemma {:induction false} FreshTotal(b: Bitmap, perGroup: nat)
    requires Shape(b, |b|, perGroup)
    requires forall g, i :: 0 <= g < |b| && 0 <= i < perGroup ==> b[g][i].Free?
    ensures FreeTotal(b) == |b| * perGroup
  {
    if b != [] {
      var n := |b| - 1;
      FreshTotal(b[..n], perGroup);
      FreshRow(b[n]);
      assert |b| * perGroup == n * perGroup + perGroup;
    }
  }

  // ---------- what an allocation does ----------

  type Block = (nat, nat)

  predicate InBitmap(b: Bitmap, c: Block) { c.0 < |b| && c.1 < |b[c.0]| }

  predicate IsFree(b: Bitmap, c: Block) { InBitmap(b, c) && b[c.0][c.1].Free? }

  predicate NoRepeats(cells: seq<Block>) { forall i, j :: 0 <= i < j < |cells| ==> cells[i] != cells[j] }

  /** Exactly the listed cells, all free before, now hold the inode number; all others are as before. */
  ghost predicate Marked(before: Bitmap, after: Bitmap, cells: seq<Block>, inode: int) {
    && |after| == |before| && (forall g :: 0 <= g < |before| ==> |after[g]| == |before[g]|)
    && NoRepeats(cells)
    && (forall c :: c in cells ==> IsFree(before, c) && after[c.0][c.1] == Used(inode))
    && (forall g: nat, i: nat :: g < |before| && i < |before[g]| && (g, i) !in cells ==> after[g][i] == before[g][i])
  }

  lemma MarkOne(before: Bitmap, b: Bitmap, cells: seq<Block>, inode: int, g: nat, i: nat)
    requires Marked(before, b, cells, inode) && IsFree(b, (g, i))
    ensures Marked(before, Set(b, g, i, Used(inode)), cells + [(g, i)], inode)
  {
  }

  // ---------- walking round the groups ----------

  /** (a % n) for a position at most one lap ahead. */
  function Wrap(a: nat, n: nat): nat
    requires a < 2 * n
  {
    if a < n then a else a - n
  }

  lemma WrapIsMod(a: nat, n: nat)
    requires n >= 1 && a < 2 * n
    ensures a % n == Wrap(a, n)
  {
    if a >= n { SubtractMod(a, n); }
  }

  lemma SubtractMod(a: nat, n: nat)
    requires 1 <= n <= a < 2 * n
    ensures a % n == a - n
  {
    assert a / n == 1;
  }

  /** The group reached after `m` moves from `start` has no free block. */
  ghost predicate FullAfter(b: Bitmap, start: nat, m: nat) {
    start < |b| && m < |b| && Full(b[Wrap(start + m, |b|)])
  }

  /** After a full lap without a free block in any group there is none anywhere. */
  lemma LapIsFull(b: Bitmap, start: nat)
    requires start < |b|
    requires forall m: nat :: m < |b| ==> FullAfter(b, start, m)
    ensures FreeTotal(b) == 0
  {
    forall g | 0 <= g < |b| ensures FreeInRow(b[g]) == 0 {
      var m := if g >= start then g - start else g + |b| - start;
      assert FullAfter(b, start, m) && Wrap(start + m, |b|) == g;
      FullRow(b[g]);
    }
    NoneFree(b);
  }
}
