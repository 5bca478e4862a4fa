/** The writes of file-raid/raid.py carried out on disks with contents: parity stays right, and only the blocks written
    change. */
module RaidDisks {
  import opened Arithmetic
  import opened Raid
  import opened RaidWrite

  type Place = (int, int)

  /** What every disk holds at every offset. */
  type Store = Place -> bv8

  ghost function DataOf(g: Geometry, st: Store): Contents
    requires Good(g)
  {
    (v: nat) => st(Bmap(g, v))
  }

  function ParityPlace(g: Geometry, s: nat, k: nat): Place
    requires Good(g)
  {
    (Pmap(g, s), s * g.chunkSize + k)
  }

  /** Every parity block is the exclusive or of the data blocks in its row. */
  ghost predicate ParityRight(g: Geometry, st: Store)
    requires Good(g)
  {
    forall s: nat, k: nat :: k < g.chunkSize ==> st(ParityPlace(g, s, k)) == Parity(g, DataOf(g, st), s, k)
  }

  // ---------- the requests of a partial write, carried out in order ----------

  /** The blocks [begin, end) of a stripe, and the values to write there. */
  datatype Segment = Segment(stripe: nat, begin: nat, end: nat, values: Contents)

  /** The disks, and what has been read from them so far. */
  datatype Running = Running(disks: Store, got: map<Place, bv8>)

  ghost function Got(got: map<Place, bv8>, p: Place): bv8 { if p in got then got[p] else 0 }

  ghost function OldData(g: Geometry, got: map<Place, bv8>): Contents
    requires Good(g)
  {
    (v: nat) => Got(got, Bmap(g, v))
  }

  /** The parity of row `k` from nothing but what was read and the new data: old parity and changes, or the whole
      row. */
  ghost function NewParity(g: Geometry, x: Segment, got: map<Place, bv8>, k: nat): bv8
    requires Good(g)
  {
    if Subtractive(g, x.begin, x.end) then
      Got(got, ParityPlace(g, x.stripe, k))
      ^ Delta(g, OldData(g, got), x.values, x.begin, x.end, x.stripe, k, Columns(g))
    else Parity(g, Overlay(OldData(g, got), x.values, x.begin, x.end), x.stripe, k)
  }

  /** What is written at a place: its parity, or the new value of the block there. */
  ghost function Value(g: Geometry, x: Segment, got: map<Place, bv8>, p: Place): bv8
    requires Good(g)
  {
    if p.0 < 0 || p.1 < 0 then 0
    else if IsParity(g, p.0, p.1) then NewParity(g, x, got, p.1 % g.chunkSize)
    else if Unmap(g, p.0, p.1) >= 0 then x.values(Unmap(g, p.0, p.1))
    else 0
  }

  ghost function Put(st: Store, q: Place, b: bv8): Store { (p: Place) => if p == q then b else st(p) }

  ghost function Exec(g: Geometry, x: Segment, r: Running, io: Io): Running
    requires Good(g)
  {
    var p := (io.disk, io.off);
    if io.Read? then r.(got := r.got[p := r.disks(p)]) else r.(disks := Put(r.disks, p, Value(g, x, r.got, p)))
  }

  ghost function ExecAll(g: Geometry, x: Segment, r: Running, ios: seq<Io>): Running
    requires Good(g)
  {
    if ios == [] then r else Exec(g, x, ExecAll(g, x, r, ios[..|ios| - 1]), ios[|ios| - 1])
  }

  lemma {:induction false} ExecAppend(g: Geometry, x: Segment, r: Running, a: seq<Io>, b: seq<Io>)
    requires Good(g)
    ensures ExecAll(g, x, r, a + b) == ExecAll(g, x, ExecAll(g, x, r, a), b)
  {
    if b == [] {
      assert a + b == a;
    } else {
      var n := |b| - 1;
      ExecAppend(g, x, r, a, b[..n]);
      assert (a + b)[..|a + b| - 1] == a + b[..n];
    }
  }

  lemma {:induction false} ExecReads(g: Geometry, x: Segment, r: Running, ios: seq<Io>)
    requires Good(g) && (forall io :: io in ios ==> io.Read?) && (forall p :: p in r.got ==> r.got[p] == r.disks(p))
    ensures var t := ExecAll(g, x, r, ios);
      && t.disks == r.disks && (forall p :: p in t.got ==> t.got[p] == r.disks(p))
      && (forall io :: io in ios ==> (io.disk, io.off) in t.got)
  {
    if ios != [] {
      var n := |ios| - 1;
      assert ios == ios[..n] + [ios[n]];
      ExecReads(g, x, r, ios[..n]);
      var t := ExecAll(g, x, r, ios);
      forall io | io in ios ensures (io.disk, io.off) in t.got {
        if io != ios[n] { assert io in ios[..n]; }
      }
    }
  }

  lemma {:induction false} ExecWrites(g: Geometry, x: Segment, r: Running, ios: seq<Io>, p: Place)
    requires Good(g) && forall io :: io in ios ==> io.Write?
    ensures var t := ExecAll(g, x, r, ios);
      t.got == r.got && t.disks(p) == if Write(p.0, p.1) in ios then Value(g, x, r.got, p) else r.disks(p)
  {
    hide Value;
    if ios != [] {
      var n := |ios| - 1;
      assert ios == ios[..n] + [ios[n]];
      ExecWrites(g, x, r, ios[..n], p);
      assert ios[n] in ios && ios[n] == Write(ios[n].disk, ios[n].off);
      assert p == (ios[n].disk, ios[n].off) <==> ios[n] == Write(p.0, p.1);
    }
  }

  // ---------- one partial write ----------

  ghost predicate IsSegment(g: Geometry, x: Segment) {
    Good(g) && InOneStripe(g, x.stripe, x.begin, x.end) && x.stripe * BlocksInStripe(g) >= 0
  }

  function Requests(g: Geometry, x: Segment): seq<Io>
    requires IsSegment(g, x)
  {
    PartialWrite(g, x.stripe, x.begin, x.end)
  }

  ghost function RunSegment(g: Geometry, x: Segment, st: Store): Store
    requires IsSegment(g, x)
  {
    ExecAll(g, x, Running(st, map[]), Requests(g, x)).disks
  }

  /** Reads come first, and see the disks as they were; each place written gets its value, all others stay. */
  lemma SegmentRuns(g: Geometry, x: Segment, st: Store) returns (got: map<Place, bv8>)
    requires IsSegment(g, x)
    ensures forall io :: io in Requests(g, x) && io.Read? ==> (io.disk, io.off) in got
    ensures forall p :: p in got ==> got[p] == st(p)
    ensures forall p: Place ::
      RunSegment(g, x, st)(p) == if Write(p.0, p.1) in Requests(g, x) then Value(g, x, got, p) else st(p)
  {
    hide Reads, Writes, Offsets, AllAt, Value, Pmap, Subtractive, InOneStripe, ExecAll;
    SegmentBounds(g, x);
    var pdisk, offs, first := Pmap(g, x.stripe), Offsets(g, x.begin, x.end), x.stripe * BlocksInStripe(g);
    var fetches := if Subtractive(g, x.begin, x.end) then Reads(g, x.begin, x.end) + AllAt(pdisk, offs, false)
      else Reads(g, first, x.begin) + Reads(g, x.end, first + BlocksInStripe(g));
    var stores := Writes(g, x.begin, x.end) + AllAt(pdisk, offs, true);
    assert Requests(g, x) == fetches + stores;
    forall io | io in fetches ensures io.Read? {
      if io.Write? {
        ReadsAreReads(g, x.begin, x.end, io);
        ReadsAreReads(g, first, x.begin, io);
        ReadsAreReads(g, x.end, first + BlocksInStripe(g), io);
        AllAtIs(pdisk, offs, false, io);
      }
    }
    forall io | io in stores ensures io.Write? {
      if io in AllAt(pdisk, offs, true) {
        AllAtIs(pdisk, offs, true, io);
      } else {
        var v := WritesOnly(g, x.begin, x.end, io);
      }
    }
    var start := Running(st, map[]);
    ExecAppend(g, x, start, fetches, stores);
    ExecReads(g, x, start, fetches);
    var middle := ExecAll(g, x, start, fetches);
    got := middle.got;
    forall p: Place
      ensures RunSegment(g, x, st)(p) == if Write(p.0, p.1) in Requests(g, x) then Value(g, x, got, p) else st(p)
    {
      ExecWrites(g, x, middle, stores, p);
    }
  }

  lemma SegmentBounds(g: Geometry, x: Segment)
    requires IsSegment(g, x)
    ensures x.stripe * BlocksInStripe(g) <= x.begin <= x.end <= x.stripe * BlocksInStripe(g) + BlocksInStripe(g)
  {
  }

  lemma SegmentData(g: Geometry, x: Segment, st: Store, v: nat)
    requires IsSegment(g, x)
    ensures DataOf(g, RunSegment(g, x, st))(v) == Overlay(DataOf(g, st), x.values, x.begin, x.end)(v)
  {
    hide Bmap, Unmap, IsParity, NewParity, PartialWrite, InOneStripe, RunSegment;
    var got := SegmentRuns(g, x, st);
    SegmentWritesOnce(g, x.stripe, x.begin, x.end, v);
    assert WriteOf(g, v) in Requests(g, x) <==> x.begin <= v < x.end;
    MapThenUnmap(g, v);
  }

  /** The parity written for a row is that of its new data. */
  lemma NewParityRight(g: Geometry, x: Segment, st: Store, got: map<Place, bv8>, k: nat)
    requires IsSegment(g, x) && ParityRight(g, st) && k < g.chunkSize && RowHit(g, x.stripe, k, x.begin, x.end)
    requires forall io :: io in Requests(g, x) && io.Read? ==> (io.disk, io.off) in got
    requires forall p :: p in got ==> got[p] == st(p)
    ensures NewParity(g, x, got, k) == Parity(g, Overlay(DataOf(g, st), x.values, x.begin, x.end), x.stripe, k)
  {
    hide Block, Bmap, Pmap, Reads, Writes, Offsets, AllAt, XorTo, Delta, InOneStripe, Subtractive, Parity;
    var s, d, e := x.stripe, DataOf(g, st), OldData(g, got);
    if Subtractive(g, x.begin, x.end) {
      var j: nat :| j < Columns(g) && x.begin <= Block(g, s, j, k) < x.end;
      OldParityRead(g, x, j, k);
      assert Read(Pmap(g, s), s * g.chunkSize + k) in Requests(g, x);
      assert Got(got, ParityPlace(g, s, k)) == Parity(g, d, s, k);
      forall v | x.begin <= v < x.end ensures e(v) == d(v) {
        ReadsHas(g, x.begin, x.end, v);
        assert ReadOf(g, v) in Requests(g, x);
      }
      DeltaAgree(g, d, e, x.values, x.begin, x.end, s, k, Columns(g));
      ParityIsXor(g, d, s, k);
      ParityIsXor(g, Overlay(d, x.values, x.begin, x.end), s, k);
      SubtractiveParity(g, d, x.values, x.begin, x.end, s, k, Columns(g));
    } else {
      WholeRow(g, x, d, e, got, k);
    }
  }

  lemma ParityIsXor(g: Geometry, d: Contents, s: nat, k: nat)
    requires Good(g)
    ensures Parity(g, d, s, k) == XorTo(g, d, s, k, Columns(g))
  {
  }

  lemma OldParityRead(g: Geometry, x: Segment, j: nat, k: nat)
    requires IsSegment(g, x) && Subtractive(g, x.begin, x.end) && InStripe(g, j, k)
    requires x.begin <= Block(g, x.stripe, j, k) < x.end
    ensures Read(Pmap(g, x.stripe), x.stripe * g.chunkSize + k) in Requests(g, x)
  {
    hide Block, Bmap, Pmap, Reads, Writes, Offsets, AllAt, InOneStripe, Subtractive;
    BmapAt(g, x.stripe, j, k);
    OffsetsHas(g, x.begin, x.end, Block(g, x.stripe, j, k));
    AllAtHas(Pmap(g, x.stripe), Offsets(g, x.begin, x.end), x.stripe * g.chunkSize + k, false);
  }

  lemma WholeRow(g: Geometry, x: Segment, d: Contents, e: Contents, got: map<Place, bv8>, k: nat)
    requires IsSegment(g, x) && k < g.chunkSize && !Subtractive(g, x.begin, x.end)
    requires forall io :: io in Requests(g, x) && io.Read? ==> (io.disk, io.off) in got
    requires forall v: nat :: Bmap(g, v) in got ==> e(v) == d(v)
    ensures Parity(g, Overlay(e, x.values, x.begin, x.end), x.stripe, k) ==
      Parity(g, Overlay(d, x.values, x.begin, x.end), x.stripe, k)
  {
    hide Block, Bmap, Pmap, Reads, Writes, Offsets, AllAt, XorTo, InOneStripe, Subtractive;
    var s, first := x.stripe, x.stripe * BlocksInStripe(g);
    SegmentBounds(g, x);
    forall i: nat | i < Columns(g)
      ensures Overlay(e, x.values, x.begin, x.end)(Block(g, s, i, k)) ==
        Overlay(d, x.values, x.begin, x.end)(Block(g, s, i, k))
    {
      var v := Block(g, s, i, k);
      StripeOf(g, s, i, k);
      if v < x.begin {
        ReadsHas(g, first, x.begin, v);
        assert ReadOf(g, v) in Requests(g, x);
      } else if v >= x.end {
        ReadsHas(g, x.end, first + BlocksInStripe(g), v);
        assert ReadOf(g, v) in Requests(g, x);
      }
    }
    XorAgree(g, Overlay(e, x.values, x.begin, x.end), Overlay(d, x.values, x.begin, x.end), s, k, Columns(g));
  }

  /** A partial write leaves every parity block of the array right. */
  lemma SegmentParity(g: Geometry, x: Segment, st: Store, s: nat, k: nat)
    requires IsSegment(g, x) && ParityRight(g, st) && k < g.chunkSize
    ensures RunSegment(g, x, st)(ParityPlace(g, s, k)) == Parity(g, DataOf(g, RunSegment(g, x, st)), s, k)
  {
    hide Block, Bmap, Pmap, Unmap, XorTo, PartialWrite, InOneStripe, NewParity, RunSegment, RowHit, Parity;
    var t, d, p := RunSegment(g, x, st), DataOf(g, st), ParityPlace(g, s, k);
    var new_ := Overlay(d, x.values, x.begin, x.end);
    forall j: nat | j < Columns(g) ensures DataOf(g, t)(Block(g, s, j, k)) == new_(Block(g, s, j, k)) {
      SegmentData(g, x, st, Block(g, s, j, k));
    }
    ParityIsXor(g, DataOf(g, t), s, k);
    ParityIsXor(g, new_, s, k);
    XorAgree(g, DataOf(g, t), new_, s, k, Columns(g));
    var got := SegmentRuns(g, x, st);
    SegmentWritesParity(g, x.stripe, x.begin, x.end, s, k);
    assert st(p) == Parity(g, d, s, k);
    if RowHit(g, s, k, x.begin, x.end) {
      HitInStripe(g, x, s, k);
      ParityPlaceIs(g, s, k);
      NewParityRight(g, x, st, got, k);
    } else {
      UntouchedRow(g, x.begin, x.end, s, k, d, x.values);
    }
  }

  lemma HitInStripe(g: Geometry, x: Segment, s: nat, k: nat)
    requires IsSegment(g, x) && k < g.chunkSize && RowHit(g, s, k, x.begin, x.end)
    ensures s == x.stripe
  {
    hide Block;
    var j: nat :| j < Columns(g) && x.begin <= Block(g, s, j, k) < x.end;
    StripeOf(g, s, j, k);
    SameStripe(g, x.stripe, s, Block(g, s, j, k));
  }

  lemma ParityPlaceIs(g: Geometry, s: nat, k: nat)
    requires Good(g) && k < g.chunkSize
    ensures var p := ParityPlace(g, s, k); p.0 >= 0 && p.1 >= 0 && IsParity(g, p.0, p.1) && p.1 % g.chunkSize == k
  {
    MulNonNegative(s, g.chunkSize);
    DivModOf(s * g.chunkSize + k, g.chunkSize, s, k);
    PmapIsParityDisk(g, s);
    StripeBijection(g, s, 0, 0);
  }

  // ---------- a whole write ----------

  /** The write of the blocks [a, hi), stripe by stripe, as in the plan. */
  ghost function RunWrite(g: Geometry, a: nat, hi: nat, w: Contents, st: Store): Store
    requires Good(g) && a <= hi
    decreases hi - a
  {
    if a == hi then st
    else
      var b := SegmentEnd(g, a, hi);
      MulNonNegative(StripeNo(g, a), BlocksInStripeNat(g));
      RunWrite(g, b, hi, w, RunSegment(g, Segment(StripeNo(g, a), a, b, w), st))
  }

  /** On disks whose parity is right, a write of any length at any address leaves the parity right, the new values in
      the blocks [a, hi), and every other block as it was. */
  lemma {:induction false} WriteOnDisks(g: Geometry, a: nat, hi: nat, w: Contents, st: Store)
    requires Good(g) && a <= hi && ParityRight(g, st)
    ensures ParityRight(g, RunWrite(g, a, hi, w, st))
    ensures forall v: nat :: DataOf(g, RunWrite(g, a, hi, w, st))(v) == if a <= v < hi then w(v) else DataOf(g, st)(v)
    decreases hi - a
  {
    hide RunSegment, DataOf, Parity, ParityPlace, InOneStripe;
    if a < hi {
      var b := SegmentEnd(g, a, hi);
      MulNonNegative(StripeNo(g, a), BlocksInStripeNat(g));
      var x := Segment(StripeNo(g, a), a, b, w);
      var t := RunSegment(g, x, st);
      forall s: nat, k: nat | k < g.chunkSize ensures t(ParityPlace(g, s, k)) == Parity(g, DataOf(g, t), s, k) {
        SegmentParity(g, x, st, s, k);
      }
      WriteOnDisks(g, b, hi, w, t);
      forall v: nat ensures DataOf(g, RunWrite(g, a, hi, w, st))(v) == if a <= v < hi then w(v) else DataOf(g, st)(v) {
        SegmentData(g, x, st, v);
      }
    }
  }
}
