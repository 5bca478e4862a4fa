/** Windows of groups in file-ffs/ffs.py: the group picked for a directory, and when it has a free inode. */
module FfsWindows {
  import opened Arithmetic
  import opened FfsBitmap

  /** Free cells in `howMany` groups from `g` on, round the end. */
  function FreeInWindow(b: Bitmap, g: nat, howMany: nat): nat
    requires |b| >= 1
  {
    if howMany == 0 then 0 else FreeInWindow(b, g, howMany - 1) + FreeInRow(b[(g + howMany - 1) % |b|])
  }

  lemma WindowOfOne(b: Bitmap, g: nat)
    requires g < |b|
    ensures FreeInWindow(b, g, 1) == FreeInRow(b[g])
  {
    assert FreeInWindow(b, g, 0) == 0;
    WrapIsMod(g, |b|);
  }

  lemma {:induction false} WindowHas(b: Bitmap, g: nat, howMany: nat, j: nat)
    requires |b| >= 1 && j < howMany
    ensures FreeInRow(b[(g + j) % |b|]) <= FreeInWindow(b, g, howMany)
  {
    if j < howMany - 1 { WindowHas(b, g, howMany - 1, j); }
  }

  /** Free cells in the window with number `k`, which starts at group k * howMany. */
  function InWindow(b: Bitmap, howMany: nat, k: nat): nat
    requires |b| >= 1
  {
    MulNonNegative(k, howMany);
    FreeInWindow(b, k * howMany, howMany)
  }

  /** The number of the first of the windows 0, ..., windows - 1 with most free cells. */
  function FirstBest(b: Bitmap, howMany: nat, windows: nat): (k: nat)
    requires |b| >= 1 && windows >= 1
    ensures k < windows
    ensures forall m: nat :: m < windows ==> InWindow(b, howMany, m) <= InWindow(b, howMany, k)
    ensures forall m: nat :: m < k ==> InWindow(b, howMany, m) < InWindow(b, howMany, k)
  {
    if windows == 1 then 0
    else
      var k := FirstBest(b, howMany, windows - 1);
      if InWindow(b, howMany, windows - 1) > InWindow(b, howMany, k) then windows - 1 else k
  }

  /** How many windows begin before group `groups`. */
  function Windows(groups: nat, howMany: nat): (w: nat)
    requires groups >= 1 && howMany >= 1
    ensures w >= 1
  {
    (groups - 1) / howMany + 1
  }

  lemma WindowsAre(groups: nat, howMany: nat, k: nat)
    requires groups >= 1 && howMany >= 1 && k >= 1
    requires (k - 1) * howMany < groups <= k * howMany
    ensures Windows(groups, howMany) == k
  {
    assert k * howMany == (k - 1) * howMany + howMany;
    DivModOf(groups - 1, howMany, k - 1, groups - 1 - (k - 1) * howMany);
  }

  /** The group where the first window with most free cells starts. */
  function BestWindow(b: Bitmap, howMany: nat): (g: nat)
    requires |b| >= 1 && howMany >= 1
    ensures g < |b|
  {
    var k := FirstBest(b, howMany, Windows(|b|, howMany));
    StartsInside(|b|, howMany, k);
    k * howMany
  }

  lemma StartsInside(groups: nat, howMany: nat, k: nat)
    requires groups >= 1 && howMany >= 1
    ensures k < Windows(groups, howMany) <==> k * howMany < groups
    ensures k * howMany >= 0
  {
    var q := (groups - 1) / howMany;
    MulNonNegative(k, howMany);
    if k < q { MulMonotone(k, q, howMany); }
    if k > q { MulMonotone(q, k, howMany); }
  }

  lemma GroupInWindow(b: Bitmap, howMany: nat, g: nat)
    requires howMany >= 1 && g < |b|
    ensures g / howMany < Windows(|b|, howMany)
    ensures InWindow(b, howMany, g / howMany) == 0 ==> FreeInRow(b[g]) == 0
  {
    hide FreeInRow, FreeInWindow;
    var m, j := g / howMany, g % howMany;
    assert m * howMany + j == g;
    StartsInside(|b|, howMany, m);
    WindowHas(b, m * howMany, howMany, j);
    WrapIsMod(g, |b|);
  }

  /** Every group lies in one of the windows, so if all windows are without a free cell there is none. */
  lemma WindowsCover(b: Bitmap, howMany: nat)
    requires |b| >= 1 && howMany >= 1 && FreeTotal(b) > 0
    ensures FreeInWindow(b, BestWindow(b, howMany), howMany) > 0
  {
    hide FreeTotal, FreeInRow, FreeInWindow, Windows;
    var best := FirstBest(b, howMany, Windows(|b|, howMany));
    if InWindow(b, howMany, best) == 0 {
      forall g | 0 <= g < |b| ensures FreeInRow(b[g]) == 0 {
        GroupInWindow(b, howMany, g);
        assert InWindow(b, howMany, g / howMany) == 0;
      }
      NoneFree(b);
    }
  }

  /** The group picked starts a window, no window has more free cells, and an earlier one has fewer. */
  lemma PickedIsFirstBest(b: Bitmap, howMany: nat, k: nat)
    requires |b| >= 1 && howMany >= 1 && k * howMany < |b|
    ensures BestWindow(b, howMany) % howMany == 0 && k * howMany >= 0
    ensures var picked := FreeInWindow(b, BestWindow(b, howMany), howMany);
      FreeInWindow(b, k * howMany, howMany) <= picked
      && (k * howMany < BestWindow(b, howMany) ==> FreeInWindow(b, k * howMany, howMany) < picked)
  {
    var best := FirstBest(b, howMany, Windows(|b|, howMany));
    StartsInside(|b|, howMany, k);
    DivModOf(best * howMany, howMany, best, 0);
    assert InWindow(b, howMany, k) <= InWindow(b, howMany, best);
    if best < k { MulMonotone(best, k, howMany); }
  }

  /** With windows of one group the group picked has most free cells of all. */
  lemma SinglesPickMost(b: Bitmap, g: nat)
    requires g < |b|
    ensures FreeInRow(b[g]) <= FreeInRow(b[BestWindow(b, 1)])
  {
    assert g * 1 == g;
    PickedIsFirstBest(b, 1, g);
    WindowOfOne(b, g);
    WindowOfOne(b, BestWindow(b, 1));
  }

  /** Windows of one group, or a single group: then, and only then, the group picked has a free cell whenever the
      bitmap has one. */
  lemma PickedHasFree(groups: nat, perGroup: nat, howMany: nat)
    requires groups >= 1 && perGroup >= 1 && howMany >= 1
    ensures (forall b: Bitmap :: Shape(b, groups, perGroup) && FreeTotal(b) > 0 ==>
      FreeInRow(b[BestWindow(b, howMany)]) > 0)
      <==> howMany == 1 || groups == 1
  {
    if howMany == 1 || groups == 1 {
      forall b: Bitmap | Shape(b, groups, perGroup) && FreeTotal(b) > 0
        ensures FreeInRow(b[BestWindow(b, howMany)]) > 0
      {
        if howMany == 1 {
          SinglePicked(b);
        } else {
          assert BestWindow(b, howMany) == 0 && FreeTotal(b[..|b| - 1]) == 0;
        }
      }
    } else {
      var b := OnlySecond(groups, perGroup);
      OnlySecondPicked(groups, perGroup, howMany);
      assert Shape(b, groups, perGroup) && FreeTotal(b) > 0;
    }
  }

  lemma SinglePicked(b: Bitmap)
    requires |b| >= 1 && FreeTotal(b) > 0
    ensures FreeInRow(b[BestWindow(b, 1)]) > 0
  {
    hide FreeTotal, FreeInRow;
    WindowsCover(b, 1);
    WindowOfOne(b, BestWindow(b, 1));
  }

  /** All cells are used but those of the second group. */
  function OnlySecond(groups: nat, perGroup: nat): Bitmap {
    seq(groups, g => seq(perGroup, i => if g == 1 then Free else Used(0)))
  }

  /** A window of two groups or more cannot start at the second group, which alone has something free. */
  lemma OnlySecondPicked(groups: nat, perGroup: nat, howMany: nat)
    requires groups >= 2 && perGroup >= 1 && howMany >= 2
    ensures var b := OnlySecond(groups, perGroup);
      Shape(b, groups, perGroup) && FreeTotal(b) > 0 && FreeInRow(b[BestWindow(b, howMany)]) == 0
  {
    hide FreeTotal, FreeInRow, FirstBest;
    var b := OnlySecond(groups, perGroup);
    var k := FirstBest(b, howMany, Windows(groups, howMany));
    if k >= 1 { MulMonotone(0, k, howMany); }
    assert BestWindow(b, howMany) == k * howMany != 1;
    FullRow(b[BestWindow(b, howMany)]);
    assert b[1][0].Free?;
    FullRow(b[1]);
    RowTotal(b, 1);
  }
}
