/** RAID 4/5 writes of file-raid/raid.py: which blocks a write reads and writes, stripe by stripe, and why
    they are enough to keep parity. */
module RaidWrite {
  import opened Arithmetic
  import opened Raid

  datatype Io = Read(disk: int, off: int) | Write(disk: int, off: int)

  // ---------- the plan of one partial write ----------

  function ReadOf(g: Geometry, v: nat): Io requires Good(g) { Read(Bmap(g, v).0, Bmap(g, v).1) }

  function WriteOf(g: Geometry, v: nat): Io requires Good(g) { Write(Bmap(g, v).0, Bmap(g, v).1) }

  function Reads(g: Geometry, lo: nat, hi: nat): seq<Io>
    requires Good(g) && lo <= hi
  {
    if lo == hi then [] else Reads(g, lo, hi - 1) + [ReadOf(g, hi - 1)]
  }

  function Writes(g: Geometry, lo: nat, hi: nat): seq<Io>
    requires Good(g) && lo <= hi
  {
    if lo == hi then [] else Writes(g, lo, hi - 1) + [WriteOf(g, hi - 1)]
  }

  /** The distinct offsets of blocks [lo, hi), in order of first appearance. */
  function Offsets(g: Geometry, lo: nat, hi: nat): seq<int>
    requires Good(g) && lo <= hi
  {
    if lo == hi then []
    else
      var before, off := Offsets(g, lo, hi - 1), Bmap(g, hi - 1).1;
      if off in before then before else before + [off]
  }

  function AllAt(pdisk: int, offs: seq<int>, write: bool): seq<Io> {
    if offs == [] then []
    else
      var n := |offs| - 1;
      AllAt(pdisk, offs[..n], write) + [if write then Write(pdisk, offs[n]) else Read(pdisk, offs[n])]
  }

  predicate Subtractive(g: Geometry, begin: nat, end: nat) {
    end - begin + 1 <= BlocksInStripe(g) - (end - begin)
  }

  predicate InOneStripe(g: Geometry, stripe: nat, begin: nat, end: nat) {
    stripe * BlocksInStripe(g) <= begin <= end <= stripe * BlocksInStripe(g) + BlocksInStripe(g)
  }

  /** Everything doPartialWrite issues, in order. */
  function PartialWrite(g: Geometry, stripe: nat, begin: nat, end: nat): seq<Io>
    requires Good(g) && InOneStripe(g, stripe, begin, end) && stripe * BlocksInStripe(g) >= 0
  {
    var pdisk, offs, first := Pmap(g, stripe), Offsets(g, begin, end), stripe * BlocksInStripe(g);
    (if Subtractive(g, begin, end) then Reads(g, begin, end) + AllAt(pdisk, offs, false)
     else Reads(g, first, begin) + Reads(g, end, first + BlocksInStripe(g)))
    + Writes(g, begin, end) + AllAt(pdisk, offs, true)
  }

  // ---------- what the plan contains ----------

  lemma {:induction false} ReadsHas(g: Geometry, lo: nat, hi: nat, v: nat)
    requires Good(g) && lo <= v < hi
    ensures ReadOf(g, v) in Reads(g, lo, hi)
  {
    if v < hi - 1 { ReadsHas(g, lo, hi - 1, v); }
  }

  lemma {:induction false} OffsetsHas(g: Geometry, lo: nat, hi: nat, v: nat)
    requires Good(g) && lo <= v < hi
    ensures Bmap(g, v).1 in Offsets(g, lo, hi)
  {
    if v < hi - 1 { OffsetsHas(g, lo, hi - 1, v); }
  }

  lemma {:induction false} OffsetsOnly(g: Geometry, lo: nat, hi: nat, off: int) returns (v: nat)
    requires Good(g) && lo <= hi && off in Offsets(g, lo, hi)
    ensures lo <= v < hi && Bmap(g, v).1 == off
  {
    if off in Offsets(g, lo, hi - 1) { v := OffsetsOnly(g, lo, hi - 1, off); } else { v := hi - 1; }
  }

  lemma {:induction false} AllAtHas(pdisk: int, offs: seq<int>, off: int, write: bool)
    requires off in offs
    ensures (if write then Write(pdisk, off) else Read(pdisk, off)) in AllAt(pdisk, offs, write)
  {
    var n := |offs| - 1;
    assert offs == offs[..n] + [offs[n]];
    if off in offs[..n] { AllAtHas(pdisk, offs[..n], off, write); }
  }

  // ---------- parity ----------

  /** The contents of the logical blocks; a block is taken to be one byte. */
  type Contents = nat -> bv8

  /** The exclusive or of the first `n` blocks of row `k` of a stripe. */
  ghost function XorTo(g: Geometry, d: Contents, s: nat, k: nat, n: nat): bv8
    requires Good(g) && n <= Columns(g)
  {
    if n == 0 then 0 else XorTo(g, d, s, k, n - 1) ^ d(Block(g, s, n - 1, k))
  }

  /** The parity block of row `k` of stripe `s`. */
  ghost function Parity(g: Geometry, d: Contents, s: nat, k: nat): bv8
    requires Good(g)
  {
    XorTo(g, d, s, k, Columns(g))
  }

  ghost function Overlay(d: Contents, w: Contents, begin: nat, end: nat): Contents {
    (v: nat) => if begin <= v < end then w(v) else d(v)
  }

  lemma {:induction false} XorAgree(g: Geometry, d: Contents, e: Contents, s: nat, k: nat, n: nat)
    requires Good(g) && n <= Columns(g) && k < g.chunkSize
    requires forall j: nat :: j < n ==> d(Block(g, s, j, k)) == e(Block(g, s, j, k))
    ensures XorTo(g, d, s, k, n) == XorTo(g, e, s, k, n)
  {
    if n > 0 { XorAgree(g, d, e, s, k, n - 1); }
  }

  /** What a write changes in the parity of a row: old and new values of the blocks it writes. */
  ghost function Delta(g: Geometry, d: Contents, w: Contents, begin: nat, end: nat, s: nat, k: nat, n: nat): bv8
    requires Good(g) && n <= Columns(g)
  {
    if n == 0 then 0
    else
      var v := Block(g, s, n - 1, k);
      Delta(g, d, w, begin, end, s, k, n - 1) ^ (if begin <= v < end then d(v) ^ w(v) else 0)
  }

  lemma Xor4(a: bv8, b: bv8, x: bv8, y: bv8)
    ensures (a ^ b) ^ y == (a ^ x) ^ (b ^ (x ^ y)) && (a ^ b) ^ x == (a ^ x) ^ (b ^ 0)
  {
  }

  /** Subtractive parity is right: new parity is old parity with every changed block's old and new value. */
  lemma {:induction false} SubtractiveParity(g: Geometry, d: Contents, w: Contents, begin: nat, end: nat,
      s: nat, k: nat, n: nat)
    requires Good(g) && n <= Columns(g)
    ensures XorTo(g, Overlay(d, w, begin, end), s, k, n) == XorTo(g, d, s, k, n) ^ Delta(g, d, w, begin, end, s, k, n)
  {
    if n > 0 {
      SubtractiveParity(g, d, w, begin, end, s, k, n - 1);
      var v := Block(g, s, n - 1, k);
      Xor4(XorTo(g, d, s, k, n - 1), Delta(g, d, w, begin, end, s, k, n - 1), d(v), w(v));
    }
  }

  lemma {:induction false} DeltaAgree(g: Geometry, d: Contents, e: Contents, w: Contents, begin: nat, end: nat,
      s: nat, k: nat, n: nat)
    requires Good(g) && n <= Columns(g)
    requires forall v :: begin <= v < end ==> d(v) == e(v)
    ensures Delta(g, d, w, begin, end, s, k, n) == Delta(g, e, w, begin, end, s, k, n)
  {
    if n > 0 { DeltaAgree(g, d, e, w, begin, end, s, k, n - 1); }
  }

  /** Two array contents that look the same through everything the partial write reads. */
  ghost predicate SameReads(g: Geometry, s: nat, ios: seq<Io>, d: Contents, e: Contents)
    requires Good(g)
  {
    && (forall v: nat :: ReadOf(g, v) in ios ==> d(v) == e(v))
    && (forall k: nat :: k < g.chunkSize && Read(Pmap(g, s), s * g.chunkSize + k) in ios ==>
      Parity(g, d, s, k) == Parity(g, e, s, k))
  }

  /** Subtractive branch: the old values of the blocks written and the old parity fix the new parity. */
  lemma SubtractiveSuffices(g: Geometry, s: nat, begin: nat, end: nat, d: Contents, e: Contents, w: Contents,
      j: nat, k: nat)
    requires Good(g) && InOneStripe(g, s, begin, end) && s * BlocksInStripe(g) >= 0 && InStripe(g, j, k)
    requires SameReads(g, s, PartialWrite(g, s, begin, end), d, e)
    requires begin <= Block(g, s, j, k) < end && Subtractive(g, begin, end)
    ensures Parity(g, Overlay(d, w, begin, end), s, k) == Parity(g, Overlay(e, w, begin, end), s, k)
  {
    hide Block, Bmap, Pmap, Reads, Writes, Offsets, AllAt, XorTo, Delta, InOneStripe, Subtractive;
    var ios, off := PartialWrite(g, s, begin, end), s * g.chunkSize + k;
    forall v: nat | begin <= v < end ensures d(v) == e(v) {
      ReadsHas(g, begin, end, v);
      assert ReadOf(g, v) in ios;
    }
    BmapAt(g, s, j, k);
    OffsetsHas(g, begin, end, Block(g, s, j, k));
    AllAtHas(Pmap(g, s), Offsets(g, begin, end), off, false);
    assert Read(Pmap(g, s), off) in ios;
    assert Parity(g, d, s, k) == Parity(g, e, s, k);
    SubtractiveParity(g, d, w, begin, end, s, k, Columns(g));
    SubtractiveParity(g, e, w, begin, end, s, k, Columns(g));
    DeltaAgree(g, d, e, w, begin, end, s, k, Columns(g));
  }

  /** Additive branch: the blocks of the stripe that are not written and the new data fix the new parity. */
  lemma AdditiveSuffices(g: Geometry, s: nat, begin: nat, end: nat, d: Contents, e: Contents, w: Contents,
      j: nat, k: nat)
    requires Good(g) && InOneStripe(g, s, begin, end) && s * BlocksInStripe(g) >= 0 && InStripe(g, j, k)
    requires SameReads(g, s, PartialWrite(g, s, begin, end), d, e)
    requires !Subtractive(g, begin, end)
    ensures Parity(g, Overlay(d, w, begin, end), s, k) == Parity(g, Overlay(e, w, begin, end), s, k)
  {
    hide Block, Bmap, Pmap, Reads, Writes, Offsets, AllAt, XorTo, Subtractive;
    var ios, first := PartialWrite(g, s, begin, end), s * BlocksInStripe(g);
    forall i: nat | i < Columns(g)
      ensures Overlay(d, w, begin, end)(Block(g, s, i, k)) == Overlay(e, w, begin, end)(Block(g, s, i, k))
    {
      var v := Block(g, s, i, k);
      StripeOf(g, s, i, k);
      if v < begin {
        ReadsHas(g, first, begin, v);
        assert ReadOf(g, v) in ios;
      } else if v >= end {
        ReadsHas(g, end, first + BlocksInStripe(g), v);
        assert ReadOf(g, v) in ios;
      }
    }
    XorAgree(g, Overlay(d, w, begin, end), Overlay(e, w, begin, end), s, k, Columns(g));
  }

  lemma SameRow(g: Geometry, s: nat, t: nat, k: nat, m: nat)
    requires Good(g) && k < g.chunkSize && m < g.chunkSize && s * g.chunkSize + k == t * g.chunkSize + m
    ensures s == t && k == m
  {
    DivModOf(s * g.chunkSize + k, g.chunkSize, s, k);
    DivModOf(s * g.chunkSize + k, g.chunkSize, t, m);
  }

  /** Row `k` of stripe `s` has a block in [begin, end). */
  ghost predicate RowHit(g: Geometry, s: nat, k: nat, begin: nat, end: nat)
    requires Good(g)
  {
    exists j: nat :: j < Columns(g) && begin <= Block(g, s, j, k) < end
  }

  /** The offsets whose parity is written are exactly those of the rows with a written block. */
  lemma OffsetsAreRows(g: Geometry, s: nat, begin: nat, end: nat, k: nat)
    requires Good(g) && begin <= end && k < g.chunkSize
    ensures s * g.chunkSize + k in Offsets(g, begin, end) <==> RowHit(g, s, k, begin, end)
  {
    hide Block, Bmap, Offsets;
    var off := s * g.chunkSize + k;
    if j: nat :| j < Columns(g) && begin <= Block(g, s, j, k) < end {
      BmapAt(g, s, j, k);
      OffsetsHas(g, begin, end, Block(g, s, j, k));
    }
    if off in Offsets(g, begin, end) {
      var v := OffsetsOnly(g, begin, end, off);
      var t, i, m := Coordinates(g, v);
      BmapAt(g, t, i, m);
      SameRow(g, s, t, k, m);
      assert begin <= Block(g, s, i, k) < end;
    }
  }

  // ---------- a whole write, stripe by stripe ----------

  function StripeNo(g: Geometry, v: nat): (s: nat)
    requires Good(g)
    ensures InOneStripe(g, s, v, v + 1)
  {
    BlocksPositive(g);
    v / BlocksInStripe(g)
  }

  lemma BlocksPositive(g: Geometry)
    requires Good(g)
    ensures BlocksInStripe(g) >= 1
  {
    MulMonotone(0, g.numDisks - 1, g.chunkSize);
  }

  /** Where the segment that starts at `a` ends: at `hi` or at the end of its stripe. */
  function SegmentEnd(g: Geometry, a: nat, hi: nat): (b: nat)
    requires Good(g) && a < hi
    ensures a < b <= hi && InOneStripe(g, StripeNo(g, a), a, b)
  {
    var last := StripeNo(g, a) * BlocksInStripe(g) + BlocksInStripe(g);
    if hi <= last then hi else last
  }

  /** Everything a write of the blocks [a, hi) issues. */
  function Plan(g: Geometry, a: nat, hi: nat): seq<Io>
    requires Good(g) && a <= hi
    decreases hi - a
  {
    if a == hi then []
    else
      var b := SegmentEnd(g, a, hi);
      MulNonNegative(StripeNo(g, a), BlocksInStripeNat(g));
      PartialWrite(g, StripeNo(g, a), a, b) + Plan(g, b, hi)
  }

  function BlocksInStripeNat(g: Geometry): (n: nat)
    requires Good(g)
    ensures n == BlocksInStripe(g)
  {
    BlocksPositive(g);
    BlocksInStripe(g)
  }

  // ---------- each block is written once ----------

  lemma {:induction false} ReadsAreReads(g: Geometry, lo: nat, hi: nat, io: Io)
    requires Good(g) && lo <= hi && io.Write?
    ensures io !in Reads(g, lo, hi)
  {
    if lo < hi { ReadsAreReads(g, lo, hi - 1, io); }
  }

  lemma {:induction false} AllAtIs(pdisk: int, offs: seq<int>, write: bool, io: Io)
    requires io in AllAt(pdisk, offs, write)
    ensures io.disk == pdisk && io.off in offs && io.Write? == write
  {
    var n := |offs| - 1;
    assert offs == offs[..n] + [offs[n]];
    if io in AllAt(pdisk, offs[..n], write) { AllAtIs(pdisk, offs[..n], write, io); }
  }

  lemma CountAppend(ios: seq<Io>, x: Io, y: Io)
    ensures multiset(ios + [x])[y] == multiset(ios)[y] + if x == y then 1 else 0
  {
  }

  lemma {:induction false} WritesOnce(g: Geometry, lo: nat, hi: nat, v: nat)
    requires Good(g) && lo <= hi
    ensures multiset(Writes(g, lo, hi))[WriteOf(g, v)] == if lo <= v < hi then 1 else 0
  {
    hide Bmap, Unmap, Good, IsParity;
    if lo < hi {
      CountAppend(Writes(g, lo, hi - 1), WriteOf(g, hi - 1), WriteOf(g, v));
      WritesOnce(g, lo, hi - 1, v);
      if WriteOf(g, v) == WriteOf(g, hi - 1) { NoTwoBlocksCollide(g, v, hi - 1); }
    }
  }

  /** A data block is never where a partial write puts parity. */
  lemma ParityIsNotData(g: Geometry, s: nat, begin: nat, end: nat, v: nat)
    requires Good(g) && InOneStripe(g, s, begin, end)
    ensures WriteOf(g, v) !in AllAt(Pmap(g, s), Offsets(g, begin, end), true)
  {
    hide Block, Bmap, Pmap, Unmap, Offsets, AllAt;
    if WriteOf(g, v) in AllAt(Pmap(g, s), Offsets(g, begin, end), true) {
      AllAtIs(Pmap(g, s), Offsets(g, begin, end), true, WriteOf(g, v));
      var u := OffsetsOnly(g, begin, end, Bmap(g, v).1);
      OffsetInStripe(g, s, begin, end, u);
      MapThenUnmap(g, v);
    }
  }

  /** The blocks of a segment lie in the rows of its stripe. */
  lemma OffsetInStripe(g: Geometry, s: nat, begin: nat, end: nat, u: nat)
    requires Good(g) && InOneStripe(g, s, begin, end) && begin <= u < end
    ensures Bmap(g, u).1 >= 0 && Bmap(g, u).1 / g.chunkSize == s
  {
    hide Block, Bmap;
    var t, i, m := Coordinates(g, u);
    BmapAt(g, t, i, m);
    StripeOf(g, t, i, m);
    SameStripe(g, s, t, u);
    MulNonNegative(s, g.chunkSize);
    DivModOf(s * g.chunkSize + m, g.chunkSize, s, m);
  }

  lemma SameStripe(g: Geometry, s: nat, t: nat, u: nat)
    requires Good(g)
    requires s * BlocksInStripe(g) <= u < s * BlocksInStripe(g) + BlocksInStripe(g)
    requires t * BlocksInStripe(g) <= u < t * BlocksInStripe(g) + BlocksInStripe(g)
    ensures s == t
  {
    var b := BlocksInStripeNat(g);
    DivModOf(u, b, s, u - s * b);
    DivModOf(u, b, t, u - t * b);
  }

  lemma SegmentWritesOnce(g: Geometry, s: nat, begin: nat, end: nat, v: nat)
    requires Good(g) && InOneStripe(g, s, begin, end) && s * BlocksInStripe(g) >= 0
    ensures multiset(PartialWrite(g, s, begin, end))[WriteOf(g, v)] == if begin <= v < end then 1 else 0
  {
    hide Bmap, Pmap, Reads, Writes, Offsets, AllAt;
    var io, pdisk, offs, first := WriteOf(g, v), Pmap(g, s), Offsets(g, begin, end), s * BlocksInStripe(g);
    WritesOnce(g, begin, end, v);
    ParityIsNotData(g, s, begin, end, v);
    ReadsAreReads(g, begin, end, io);
    ReadsAreReads(g, first, begin, io);
    ReadsAreReads(g, end, first + BlocksInStripe(g), io);
    if io in AllAt(pdisk, offs, false) { AllAtIs(pdisk, offs, false, io); }
  }

  /** A write of [a, hi) writes every data block of the range exactly once and no other. */
  lemma {:induction false} EachBlockOnce(g: Geometry, a: nat, hi: nat, v: nat)
    requires Good(g) && a <= hi
    ensures multiset(Plan(g, a, hi))[WriteOf(g, v)] == if a <= v < hi then 1 else 0
    decreases hi - a
  {
    hide PartialWrite, Bmap, InOneStripe;
    if a < hi {
      var b := SegmentEnd(g, a, hi);
      MulNonNegative(StripeNo(g, a), BlocksInStripeNat(g));
      SegmentWritesOnce(g, StripeNo(g, a), a, b, v);
      EachBlockOnce(g, b, hi, v);
    }
  }

  // ---------- parity of a whole write ----------

  function Max(a: nat, b: nat): nat { if a <= b then b else a }

  function Min(a: nat, b: nat): nat { if a <= b then a else b }

  /** The part of [a, hi) in stripe `s`. */
  function From(g: Geometry, s: nat, a: nat): nat
    requires Good(g)
  {
    MulNonNegative(s, BlocksInStripeNat(g));
    Max(a, s * BlocksInStripe(g))
  }

  function To(g: Geometry, s: nat, hi: nat): nat
    requires Good(g)
  {
    MulNonNegative(s, BlocksInStripeNat(g));
    Min(hi, s * BlocksInStripe(g) + BlocksInStripe(g))
  }

  /** The part of the range in stripe `s` is written by one partial write, whose blocks are all in the plan. */
  lemma {:induction false} PlanHasStripe(g: Geometry, a: nat, hi: nat, s: nat)
    requires Good(g) && a <= hi && From(g, s, a) < To(g, s, hi)
    ensures InOneStripe(g, s, From(g, s, a), To(g, s, hi)) && s * BlocksInStripe(g) >= 0
    ensures forall io :: io in PartialWrite(g, s, From(g, s, a), To(g, s, hi)) ==> io in Plan(g, a, hi)
    decreases hi - a
  {
    hide PartialWrite;
    var b, t := SegmentEnd(g, a, hi), StripeNo(g, a);
    MulNonNegative(s, BlocksInStripeNat(g));
    MulNonNegative(t, BlocksInStripeNat(g));
    if s < t { MulMonotone(s, t, BlocksInStripeNat(g)); assert false; }
    if s > t {
      MulMonotone(t, s, BlocksInStripeNat(g));
      PlanHasStripe(g, b, hi, s);
    }
  }

  /** The parity writes of a plan are those of the rows with a written block. */
  lemma {:induction false} PlanWritesParity(g: Geometry, a: nat, hi: nat, s: nat, k: nat)
    requires Good(g) && a <= hi && k < g.chunkSize
    ensures Write(Pmap(g, s), s * g.chunkSize + k) in Plan(g, a, hi) <==> RowHit(g, s, k, a, hi)
    decreases hi - a
  {
    hide Pmap, Block, PartialWrite, InOneStripe;
    if a < hi {
      var b, t := SegmentEnd(g, a, hi), StripeNo(g, a);
      MulNonNegative(t, BlocksInStripeNat(g));
      PlanWritesParity(g, b, hi, s, k);
      SegmentWritesParity(g, t, a, b, s, k);
      if j: nat :| j < Columns(g) && a <= Block(g, s, j, k) < hi {
        assert a <= Block(g, s, j, k) < b || b <= Block(g, s, j, k) < hi;
      }
    }
  }

  lemma SegmentWritesParity(g: Geometry, t: nat, a: nat, b: nat, s: nat, k: nat)
    requires Good(g) && InOneStripe(g, t, a, b) && t * BlocksInStripe(g) >= 0 && k < g.chunkSize
    ensures Write(Pmap(g, s), s * g.chunkSize + k) in PartialWrite(g, t, a, b) <==> RowHit(g, s, k, a, b)
  {
    hide Pmap, Bmap, Block, Reads, Writes, Offsets, AllAt, RowHit;
    var io, off, offs := Write(Pmap(g, s), s * g.chunkSize + k), s * g.chunkSize + k, Offsets(g, a, b);
    ReadsAreReads(g, a, b, io);
    ReadsAreReads(g, t * BlocksInStripe(g), a, io);
    ReadsAreReads(g, b, t * BlocksInStripe(g) + BlocksInStripe(g), io);
    if io in AllAt(Pmap(g, t), offs, false) { AllAtIs(Pmap(g, t), offs, false, io); }
    OffsetsAreRows(g, s, a, b, k);
    MulNonNegative(s, g.chunkSize);
    DivModOf(off, g.chunkSize, s, k);
    if io in Writes(g, a, b) {
      var v := WritesOnly(g, a, b, io);
      MapThenUnmap(g, v);
      assert false;
    }
    if off in offs {
      var u := OffsetsOnly(g, a, b, off);
      OffsetInStripe(g, t, a, b, u);
      AllAtHas(Pmap(g, t), offs, off, true);
    }
    if io in AllAt(Pmap(g, t), offs, true) { AllAtIs(Pmap(g, t), offs, true, io); }
  }

  lemma {:induction false} WritesOnly(g: Geometry, lo: nat, hi: nat, io: Io) returns (v: nat)
    requires Good(g) && lo <= hi && io in Writes(g, lo, hi)
    ensures io == WriteOf(g, v)
  {
    if io in Writes(g, lo, hi - 1) { v := WritesOnly(g, lo, hi - 1, io); } else { v := hi - 1; }
  }

  /** In stripe `s` the whole write changes what its one partial write changes. */
  lemma OverlayInStripe(g: Geometry, a: nat, hi: nat, s: nat, k: nat, d: Contents, w: Contents)
    requires Good(g) && a <= hi && k < g.chunkSize
    ensures Parity(g, Overlay(d, w, a, hi), s, k) == Parity(g, Overlay(d, w, From(g, s, a), To(g, s, hi)), s, k)
  {
    hide Block, XorTo;
    forall j: nat | j < Columns(g)
      ensures Overlay(d, w, a, hi)(Block(g, s, j, k)) == Overlay(d, w, From(g, s, a), To(g, s, hi))(Block(g, s, j, k))
    {
      StripeOf(g, s, j, k);
    }
    XorAgree(g, Overlay(d, w, a, hi), Overlay(d, w, From(g, s, a), To(g, s, hi)), s, k, Columns(g));
  }

  /** Contents that look the same through everything the plan reads. */
  ghost predicate SamePlanReads(g: Geometry, ios: seq<Io>, d: Contents, e: Contents)
    requires Good(g)
  {
    forall s: nat :: SameReads(g, s, ios, d, e)
  }

  /** A write keeps parity. Rows whose parity block it writes are exactly those with a written block, and for
      each of them what the plan reads, with the new data, determines the parity to write; in every other
      row the parity on disk is still right. */
  lemma WriteKeepsParity(g: Geometry, a: nat, hi: nat, s: nat, k: nat, d: Contents, e: Contents, w: Contents)
    requires Good(g) && a <= hi && k < g.chunkSize && SamePlanReads(g, Plan(g, a, hi), d, e)
    ensures Write(Pmap(g, s), s * g.chunkSize + k) in Plan(g, a, hi) <==> RowHit(g, s, k, a, hi)
    ensures RowHit(g, s, k, a, hi) ==> Parity(g, Overlay(d, w, a, hi), s, k) == Parity(g, Overlay(e, w, a, hi), s, k)
    ensures !RowHit(g, s, k, a, hi) ==> Parity(g, Overlay(d, w, a, hi), s, k) == Parity(g, d, s, k)
  {
    hide Block, XorTo, Plan, PartialWrite, Parity, Pmap, InOneStripe;
    PlanWritesParity(g, a, hi, s, k);
    if j: nat :| j < Columns(g) && a <= Block(g, s, j, k) < hi {
      StripeOf(g, s, j, k);
      var begin, end := From(g, s, a), To(g, s, hi);
      PlanHasStripe(g, a, hi, s);
      OverlayInStripe(g, a, hi, s, k, d, w);
      OverlayInStripe(g, a, hi, s, k, e, w);
      assert SameReads(g, s, Plan(g, a, hi), d, e);
      assert SameReads(g, s, PartialWrite(g, s, begin, end), d, e);
      if Subtractive(g, begin, end) {
        SubtractiveSuffices(g, s, begin, end, d, e, w, j, k);
      } else {
        AdditiveSuffices(g, s, begin, end, d, e, w, j, k);
      }
    } else {
      UntouchedRow(g, a, hi, s, k, d, w);
    }
  }

  lemma UntouchedRow(g: Geometry, a: nat, hi: nat, s: nat, k: nat, d: Contents, w: Contents)
    requires Good(g) && k < g.chunkSize && !RowHit(g, s, k, a, hi)
    ensures Parity(g, Overlay(d, w, a, hi), s, k) == Parity(g, d, s, k)
  {
    hide Block, XorTo;
    XorAgree(g, Overlay(d, w, a, hi), d, s, k, Columns(g));
  }

  // ---------- what is issued, and in what order ----------

  /** Reads and writes go through the blocks of a range in their order. */
  lemma {:induction false} InBlockOrder(g: Geometry, lo: nat, hi: nat, i: nat)
    requires Good(g) && i < hi - lo
    ensures |Reads(g, lo, hi)| == |Writes(g, lo, hi)| == hi - lo
    ensures Reads(g, lo, hi)[i] == Read(Bmap(g, lo + i).0, Bmap(g, lo + i).1)
    ensures Writes(g, lo, hi)[i] == Write(Bmap(g, lo + i).0, Bmap(g, lo + i).1)
  {
    hide Bmap;
    if lo + 1 < hi { InBlockOrder(g, lo, hi - 1, if i < hi - lo - 1 then i else 0); }
  }

  /** Each offset is listed once, and one listed earlier was met earlier. */
  lemma {:induction false} OffsetsInOrder(g: Geometry, lo: nat, hi: nat, i: nat, j: nat)
    requires Good(g) && lo <= hi && i < j < |Offsets(g, lo, hi)|
    ensures var offs := Offsets(g, lo, hi);
      && offs[i] != offs[j]
      && forall v: nat :: lo <= v < hi && Bmap(g, v).1 == offs[j] ==>
           exists u: nat :: lo <= u < v && Bmap(g, u).1 == offs[i]
  {
    hide Bmap;
    var before, offs := Offsets(g, lo, hi - 1), Offsets(g, lo, hi);
    if j < |before| {
      OffsetsInOrder(g, lo, hi - 1, i, j);
      forall v: nat | lo <= v < hi && Bmap(g, v).1 == offs[j]
        ensures exists u: nat :: lo <= u < v && Bmap(g, u).1 == offs[i]
      {
        if v == hi - 1 {
          var u := OffsetsOnly(g, lo, hi - 1, offs[i]);
        }
      }
    } else {
      var u := OffsetsOnly(g, lo, hi - 1, offs[i]);
      forall v: nat | lo <= v < hi && Bmap(g, v).1 == offs[j] ensures v == hi - 1 {
        if v < hi - 1 { OffsetsHas(g, lo, hi - 1, v); }
      }
    }
  }

  lemma {:induction false} ParityRequests(pdisk: int, offs: seq<int>, write: bool, i: nat)
    requires i < |offs|
    ensures |AllAt(pdisk, offs, write)| == |offs|
    ensures AllAt(pdisk, offs, write)[i] == if write then Write(pdisk, offs[i]) else Read(pdisk, offs[i])
  {
    if |offs| > 1 { ParityRequests(pdisk, offs[..|offs| - 1], write, if i < |offs| - 1 then i else 0); }
  }

  /** The old parity is read if and only if that way no more blocks are read than the other: when the blocks written and
      one more are at most the other blocks of the stripe. */
  lemma ParityReadIff(g: Geometry, s: nat, begin: nat, end: nat, j: nat, k: nat)
    requires Good(g) && InOneStripe(g, s, begin, end) && s * BlocksInStripe(g) >= 0 && InStripe(g, j, k)
    requires begin <= Block(g, s, j, k) < end
    ensures Read(Pmap(g, s), s * g.chunkSize + k) in PartialWrite(g, s, begin, end)
      <==> 2 * (end - begin) + 1 <= BlocksInStripe(g)
  {
    hide Block, Bmap, Pmap, Reads, Writes, Offsets, AllAt;
    var io, pdisk, offs := Read(Pmap(g, s), s * g.chunkSize + k), Pmap(g, s), Offsets(g, begin, end);
    var first := s * BlocksInStripe(g);
    BmapAt(g, s, j, k);
    OffsetsHas(g, begin, end, Block(g, s, j, k));
    if Subtractive(g, begin, end) { AllAtHas(pdisk, offs, io.off, false); }
    NoParityRead(g, s, k, first, begin);
    NoParityRead(g, s, k, end, first + BlocksInStripe(g));
    WritesAreWrites(g, begin, end, io);
    if io in AllAt(pdisk, offs, true) { AllAtIs(pdisk, offs, true, io); }
  }

  lemma {:induction false} NoParityRead(g: Geometry, s: nat, k: nat, lo: nat, hi: nat)
    requires Good(g) && lo <= hi && k < g.chunkSize
    ensures Read(Pmap(g, s), s * g.chunkSize + k) !in Reads(g, lo, hi)
  {
    hide Bmap, Pmap, Unmap;
    if lo < hi {
      NoParityRead(g, s, k, lo, hi - 1);
      MapThenUnmap(g, hi - 1);
      MulNonNegative(s, g.chunkSize);
      DivModOf(s * g.chunkSize + k, g.chunkSize, s, k);
    }
  }

  lemma {:induction false} WritesAreWrites(g: Geometry, lo: nat, hi: nat, io: Io)
    requires Good(g) && lo <= hi && io.Read?
    ensures io !in Writes(g, lo, hi)
  {
    if lo < hi { WritesAreWrites(g, lo, hi - 1, io); }
  }

  // ---------- the code ----------

  /** The array as seen by enqueue45: the requests sent to the disks, in order. */
  class Array {
    const g: Geometry
    var ios: seq<Io>

    constructor (g: Geometry)
      ensures this.g == g && ios == []
    {
      this.g := g;
      ios := [];
    }

    method DoSingleRead(disk: int, off: int)
      modifies this
      ensures ios == old(ios) + [Read(disk, off)]
    {
      ios := ios + [Read(disk, off)];
    }

    method DoSingleWrite(disk: int, off: int)
      modifies this
      ensures ios == old(ios) + [Write(disk, off)]
    {
      ios := ios + [Write(disk, off)];
    }

    method ReadBlocks(lo: nat, hi: nat)
      requires Good(g) && lo <= hi
      modifies this
      ensures ios == old(ios) + Reads(g, lo, hi)
    {
      for voff := lo to hi
        invariant ios == old(ios) + Reads(g, lo, voff)
      {
        var (disk, off) := Bmap(g, voff);
        DoSingleRead(disk, off);
      }
    }

    /** The loop of the subtractive branch: read, and note each offset once. */
    method ReadAndNote(begin: nat, end: nat) returns (offList: seq<int>)
      requires Good(g) && begin <= end
      modifies this
      ensures ios == old(ios) + Reads(g, begin, end) && offList == Offsets(g, begin, end)
    {
      offList := [];
      for voff := begin to end
        invariant ios == old(ios) + Reads(g, begin, voff) && offList == Offsets(g, begin, voff)
      {
        var (disk, off) := Bmap(g, voff);
        DoSingleRead(disk, off);
        if off !in offList { offList := offList + [off]; }
      }
    }

    method WriteAndNote(begin: nat, end: nat) returns (offList: seq<int>)
      requires Good(g) && begin <= end
      modifies this
      ensures ios == old(ios) + Writes(g, begin, end) && offList == Offsets(g, begin, end)
    {
      offList := [];
      for voff := begin to end
        invariant ios == old(ios) + Writes(g, begin, voff) && offList == Offsets(g, begin, voff)
      {
        var (disk, off) := Bmap(g, voff);
        DoSingleWrite(disk, off);
        if off !in offList { offList := offList + [off]; }
      }
    }

    method AllOffsets(pdisk: int, offList: seq<int>, write: bool)
      modifies this
      ensures ios == old(ios) + AllAt(pdisk, offList, write)
    {
      for i := 0 to |offList|
        invariant ios == old(ios) + AllAt(pdisk, offList[..i], write)
      {
        if write { DoSingleWrite(pdisk, offList[i]); } else { DoSingleRead(pdisk, offList[i]); }
        assert offList[..i + 1][..i] == offList[..i];
      }
      assert offList[..|offList|] == offList;
    }

    method DoPartialWrite(stripe: nat, begin: nat, end: nat)
      requires Good(g) && InOneStripe(g, stripe, begin, end) && stripe * BlocksInStripe(g) >= 0
      modifies this
      ensures ios == old(ios) + PartialWrite(g, stripe, begin, end)
    {
      hide Bmap, Pmap, Reads, Writes, Offsets, AllAt;
      var numWrites, pdisk := end - begin, Pmap(g, stripe);
      if numWrites + 1 <= BlocksInStripe(g) - numWrites {
        var offList := ReadAndNote(begin, end);
        AllOffsets(pdisk, offList, false);
      } else {
        var stripeBegin := stripe * BlocksInStripe(g);
        var stripeEnd := stripeBegin + BlocksInStripe(g);
        ReadBlocks(stripeBegin, begin);
        ReadBlocks(end, stripeEnd);
      }
      var offList := WriteAndNote(begin, end);
      AllOffsets(pdisk, offList, true);
    }

    /** enqueue45 for RAID 4 and 5: a read touches each block of the range; a write goes stripe by stripe. */
    method Enqueue(addr: nat, size: nat, isWrite: bool)
      requires Good(g)
      modifies this
      ensures ios == old(ios) + if isWrite then Plan(g, addr, addr + size) else Reads(g, addr, addr + size)
    {
      if !isWrite {
        ReadBlocks(addr, addr + size);
      } else {
        WriteStripes(addr, size);
      }
    }

    /** One turn of the loop over stripes. */
    method WriteStripe(stripe: nat, begin: nat, left: nat) returns (end: nat)
      requires Good(g) && StripeNo(g, begin) == stripe
      modifies this
      ensures left == 0 ==> end == begin && ios == old(ios)
      ensures left > 0 ==> end == SegmentEnd(g, begin, begin + left)
      ensures left > 0 ==> ios + Plan(g, end, begin + left) == old(ios) + Plan(g, begin, begin + left)
    {
      hide PartialWrite, StripeNo, SegmentEnd, InOneStripe;
      if left > 0 { NextSegment(g, begin, begin + left); } else { EmptyWrite(g, begin); }
      var endOfStripe := stripe * BlocksInStripe(g) + BlocksInStripe(g);
      if left >= BlocksInStripe(g) { end := begin + BlocksInStripe(g); } else { end := begin + left; }
      if end >= endOfStripe { end := endOfStripe; }
      DoPartialWrite(stripe, begin, end);
    }

    method WriteStripes(addr: nat, size: nat)
      requires Good(g)
      modifies this
      ensures ios == old(ios) + Plan(g, addr, addr + size)
    {
      hide Plan, PartialWrite, StripeNo, SegmentEnd, InOneStripe, BlocksInStripe, Good;
      ghost var hi := addr + size;
      var initStripe := StripeNo(g, addr);
      var finalStripe := if addr + size == 0 then 0 else StripeNo(g, addr + size - 1);
      var left, begin := size, addr;
      if size > 0 { StripesInOrder(g, addr, hi - 1); } else if hi > 0 { StripesInOrder(g, hi - 1, hi); }
      for stripe := initStripe to Max(initStripe, finalStripe + 1)
        invariant left == hi - begin && addr <= begin <= hi
        invariant begin < hi ==> StripeNo(g, begin) == stripe
        invariant begin == hi && stripe <= finalStripe ==> size == 0 && stripe == initStripe
        invariant stripe > finalStripe ==> begin == hi
        invariant size == 0 ==> ios == old(ios)
        invariant ios + Plan(g, begin, hi) == old(ios) + Plan(g, addr, hi)
      {
        if size > 0 { NextStripe(g, begin, hi); }
        var end := WriteStripe(stripe, begin, left);
        left := left - (end - begin);
        begin := end;
      }
      PlanOfNothing(g, hi);
    }
  }

  lemma PlanOfNothing(g: Geometry, a: nat)
    requires Good(g)
    ensures Plan(g, a, a) == []
  {
  }

  /** The end computed by the loop is that of the segment, and the next segment starts the next stripe. */
  lemma NextSegment(g: Geometry, begin: nat, hi: nat)
    requires Good(g) && begin < hi
    ensures var s, b := StripeNo(g, begin), BlocksInStripe(g);
      var end := if hi - begin >= b then begin + b else hi;
      && s * b >= 0
      && SegmentEnd(g, begin, hi) == (if end >= s * b + b then s * b + b else end)
      && (SegmentEnd(g, begin, hi) < hi ==> StripeNo(g, SegmentEnd(g, begin, hi)) == s + 1)
      && (SegmentEnd(g, begin, hi) == hi <==> s == StripeNo(g, hi - 1))
  {
    hide StripeNo;
    var s, b, e, last := StripeNo(g, begin), BlocksInStripeNat(g), SegmentEnd(g, begin, hi), StripeNo(g, hi - 1);
    MulNonNegative(s, b);
    assert (s + 1) * b == s * b + b;
    if e < hi {
      StripeNoIs(g, e, s + 1);
    } else {
      StripeNoIs(g, hi - 1, s);
    }
  }

  lemma StripeNoIs(g: Geometry, v: nat, s: nat)
    requires Good(g) && s * BlocksInStripe(g) <= v < s * BlocksInStripe(g) + BlocksInStripe(g)
    ensures StripeNo(g, v) == s
  {
    DivModOf(v, BlocksInStripeNat(g), s, v - s * BlocksInStripeNat(g));
  }

  /** A segment that is not the last is followed by one in the next stripe; the last ends in the last stripe. */
  lemma NextStripe(g: Geometry, begin: nat, hi: nat)
    requires Good(g) && begin < hi
    ensures SegmentEnd(g, begin, hi) < hi ==> StripeNo(g, SegmentEnd(g, begin, hi)) == StripeNo(g, begin) + 1
    ensures SegmentEnd(g, begin, hi) == hi <==> StripeNo(g, begin) == StripeNo(g, hi - 1)
  {
    hide StripeNo, SegmentEnd, InOneStripe;
    NextSegment(g, begin, hi);
  }

  lemma StripesInOrder(g: Geometry, a: nat, b: nat)
    requires Good(g) && a <= b
    ensures StripeNo(g, a) <= StripeNo(g, b)
  {
    hide StripeNo;
    if StripeNo(g, b) < StripeNo(g, a) { MulMonotone(StripeNo(g, b), StripeNo(g, a), BlocksInStripeNat(g)); }
  }

  lemma EmptyWrite(g: Geometry, a: nat)
    requires Good(g)
    ensures InOneStripe(g, StripeNo(g, a), a, a) && StripeNo(g, a) * BlocksInStripe(g) >= 0
    ensures a < StripeNo(g, a) * BlocksInStripe(g) + BlocksInStripe(g)
    ensures PartialWrite(g, StripeNo(g, a), a, a) == []
  {
    MulNonNegative(StripeNo(g, a), BlocksInStripeNat(g));
  }
}
