/** What the clients of dist-afs/afs.py see over a whole run, and the simulator's objects as one class. */
module AfsSessions {
  import opened Afs

  // ---------- reading a history ----------

  type History = seq<Act>

  predicate Own(a: Act, c: nat, f: Name) { a.client == c && a.file == f }

  /** Client `c` has file `f` open at the end of the history. */
  predicate IsOpen(h: History, c: nat, f: Name) {
    if h == [] then false
    else
      var n := |h| - 1;
      if Own(h[n], c, f) && (h[n].op.Open? || h[n].op.Close?) then h[n].op.Open? else IsOpen(h[..n], c, f)
  }

  /** It has written to it since it opened it. */
  predicate HasWritten(h: History, c: nat, f: Name) {
    if h == [] then false
    else
      var n := |h| - 1;
      if Own(h[n], c, f) && !h[n].op.Read? then h[n].op.Write? else HasWritten(h[..n], c, f)
  }

  /** The contents the last close after a write left at the server. */
  function LastClosed(initial: map<Name, int>, h: History, f: Name): int
    requires f in initial
    decreases |h|, 1
  {
    if h == [] then initial[f]
    else
      var n := |h| - 1;
      if h[n].file == f && h[n].op.Close? && HasWritten(h[..n], h[n].client, f)
        then Seen(initial, h[..n], h[n].client, f)
      else LastClosed(initial, h[..n], f)
  }

  /** What client `c` should see in its open file: its own last write since it opened it, or else what the last
      close had left when it opened it. */
  function Seen(initial: map<Name, int>, h: History, c: nat, f: Name): int
    requires f in initial
    decreases |h|, 0
  {
    if h == [] then initial[f]
    else
      var n := |h| - 1;
      if Own(h[n], c, f) && h[n].op.Open? then LastClosed(initial, h[..n], f)
      else if Own(h[n], c, f) && h[n].op.Write? then h[n].op.value
      else Seen(initial, h[..n], c, f)
  }

  /** Clients use files the server has, and each has at most one descriptor per file open at a time. */
  predicate Disciplined(initial: map<Name, int>, clients: nat, h: History) {
    h == [] ||
    var n := |h| - 1;
    && Disciplined(initial, clients, h[..n])
    && h[n].client < clients && h[n].file in initial
    && (h[n].op.Open? <==> !IsOpen(h[..n], h[n].client, h[n].file))
  }

  // ---------- sessions ----------

  function Empties(n: nat): (r: seq<Cache>)
    ensures |r| == n && forall i :: 0 <= i < n ==> r[i] == map[]
  {
    if n == 0 then [] else Empties(n - 1) + [map[]]
  }

  function NoNames(n: nat): (r: seq<seq<Name>>)
    ensures |r| == n && forall i :: 0 <= i < n ==> r[i] == []
  {
    if n == 0 then [] else NoNames(n - 1) + [[]]
  }

  function Initial(contents: map<Name, int>,
      clients: nat): State { State(contents, NoNames(clients), Empties(clients)) }

  /** The state a history should lead to, file by file. */
  ghost predicate AsSeen(initial: map<Name, int>, h: History, s: State, c: nat, f: Name)
    requires Shaped(s) && c < |s.caches| && f in initial
  {
    && f in s.contents && s.contents[f] == LastClosed(initial, h, f)
    && (IsOpen(h, c, f) ==> f in s.caches[c] && s.caches[c][f].refcnt == 1)
    && (IsOpen(h, c, f) ==>
      s.caches[c][f].dirty == HasWritten(h, c, f) && s.caches[c][f].data == Seen(initial, h, c, f))
    && (!IsOpen(h, c, f) ==>
      !HasWritten(h, c, f) && (f in s.caches[c] ==> s.caches[c][f].refcnt == 0 && !s.caches[c][f].dirty))
  }

  ghost predicate AllAsSeen(initial: map<Name, int>, clients: nat, h: History, s: State) {
    Coherent(s) && |s.caches| == clients && forall c: nat, f :: c < clients && f in initial ==>
      AsSeen(initial, h, s, c, f)
  }

  lemma InRange(initial: map<Name, int>, clients: nat, h: History, k: nat)
    requires Disciplined(initial, clients, h) && k < |h|
    ensures h[k].client < clients
  {
    var n := |h| - 1;
    if k < n { InRange(initial, clients, h[..n], k); }
  }

  /** Any disciplined run, under any schedule: no assertion fails; a file at the server is what the last close
      after a write left; and an open file shows its client its own last write, or what that close had left when
      the file was opened. */
  lemma {:induction false} Sessions(initial: map<Name, int>, clients: nat, h: History)
    requires Disciplined(initial, clients, h)
    ensures forall k :: 0 <= k < |h| ==> h[k].client < clients
    ensures Run(Initial(initial, clients), h).Some?
    ensures AllAsSeen(initial, clients, h, Run(Initial(initial, clients), h).value)
  {
    forall k | 0 <= k < |h| ensures h[k].client < clients { InRange(initial, clients, h, k); }
    if h != [] {
      var n := |h| - 1;
      Sessions(initial, clients, h[..n]);
      var s := Run(Initial(initial, clients), h[..n]).value;
      StepSucceeds(initial, clients, h[..n], s, h[n]);
      StepCoherent(s, h[n]);
      forall c: nat, f | c < clients && f in initial ensures AsSeen(initial, h, Step(s, h[n]).value, c, f) {
        StepAsSeen(initial, clients, h, s, c, f);
      }
    }
  }

  lemma StepSucceeds(initial: map<Name, int>, clients: nat, h: History, s: State, a: Act)
    requires AllAsSeen(initial, clients, h, s) && a.client < clients && a.file in initial
    requires a.op.Open? <==> !IsOpen(h, a.client, a.file)
    ensures Step(s, a).Some?
  {
    hide IsOpen, HasWritten, LastClosed, Seen, Coherent, Put;
    CoherentAt(s, a.client, a.file);
    assert AsSeen(initial, h, s, a.client, a.file);
  }

  lemma StepAsSeen(initial: map<Name, int>, clients: nat, h: History, s: State, c: nat, f: Name)
    requires h != [] && var n := |h| - 1;
      AllAsSeen(initial, clients, h[..n], s) && h[n].client < clients && h[n].file in initial
    requires var a := h[|h| - 1];
      (a.op.Open? <==> !IsOpen(h[..|h| - 1], a.client, a.file)) && Shaped(s) && Step(s, a).Some?
    requires c < clients && f in initial
    ensures var t := Step(s, h[|h| - 1]).value; Shaped(t) && |t.caches| == clients && AsSeen(initial, h, t, c, f)
  {
    hide Coherent, Scanned, RemoteSame;
    var n := |h| - 1;
    var a, t := h[n], Step(s, h[n]).value;
    StepShaped(s, a);
    assert c < |s.caches| && a.client < |s.caches|;
    assert AsSeen(initial, h[..n], s, c, f) && AsSeen(initial, h[..n], s, a.client, a.file)
      && AsSeen(initial, h[..n], s, a.client, f);
    CoherentAt(s, a.client, a.file);
    if a.op.Close? && s.caches[a.client][a.file].dirty {
      PutIs(s, a.client, a.file, s.caches[a.client][a.file].data, c);
    }
  }

  /** In a disciplined run an open always sees the last close after a write, by whichever client. */
  lemma OpenSeesLastClose(initial: map<Name, int>, clients: nat, h: History, c: nat, f: Name)
    requires Disciplined(initial, clients, h + [Act(c, Open, f)])
    ensures forall k :: 0 <= k <= |h| ==> (h + [Act(c, Open, f)])[k].client < clients
    ensures Run(Initial(initial, clients), h + [Act(c, Open, f)]).Some?
    ensures f in initial && c < clients
    ensures var t := Run(Initial(initial, clients), h + [Act(c, Open, f)]).value;
      c < |t.caches| && f in t.caches[c] && t.caches[c][f].data == LastClosed(initial, h, f)
  {
    var g := h + [Act(c, Open, f)];
    assert g[..|h|] == h;
    Sessions(initial, clients, g);
    var t := Run(Initial(initial, clients), g).value;
    assert AsSeen(initial, g, t, c, f);
  }

  // ---------- what goes wrong without the discipline ----------

  /** An open counts its reference unless it finds an invalidated copy that is still referenced; it keeps a write not
      yet closed exactly when the copy is valid. */
  lemma OpenCounts(s: State, c: nat, f: Name)
    requires Shaped(s) && c < |s.caches| && f in s.caches[c] && GetFile(s, c, f).Some?
    ensures f in GetFile(s, c, f).value.caches[c]
    ensures GetFile(s, c, f).value.caches[c][f].refcnt == s.caches[c][f].refcnt + 1
      <==> (s.caches[c][f].valid || s.caches[c][f].refcnt == 0)
    ensures GetFile(s, c, f).value.caches[c][f].data == s.caches[c][f].data
      <==> (s.caches[c][f].valid || s.caches[c][f].data == s.contents[f])
    ensures GetFile(s, c, f).value.caches[c][f].dirty == s.caches[c][f].dirty
      <==> (s.caches[c][f].valid || !s.caches[c][f].dirty)
  {
  }

  /** One more action. */
  lemma RunOn(s: State, acts: seq<Act>, a: Act)
    requires Shaped(s) && (forall k :: 0 <= k < |acts| ==> acts[k].client < |s.caches|) && a.client < |s.caches|
    requires Run(s, acts).Some?
    ensures Run(s, acts + [a]) == Step(Run(s, acts).value, a)
  {
    assert (acts + [a])[..|acts|] == acts;
    if Step(Run(s, acts).value, a).Some? { StepShaped(Run(s, acts).value, a); }
  }

  /** Since client `c` last opened the file, another client has closed it after a write. */
  predicate Stale(h: History, c: nat, f: Name) {
    if h == [] then false
    else
      var n := |h| - 1;
      if Own(h[n], c, f) && h[n].op.Open? then false
      else if h[n].file == f && h[n].client != c && h[n].op.Close? && HasWritten(h[..n], h[n].client, f) then true
      else Stale(h[..n], c, f)
  }

  ghost predicate ValidAsSeen(h: History, s: State, c: nat, f: Name)
    requires c < |s.caches|
  {
    IsOpen(h, c, f) ==> f in s.caches[c] && s.caches[c][f].valid == !Stale(h, c, f)
  }

  lemma StepValid(initial: map<Name, int>, clients: nat, h: History, s: State, c: nat, f: Name)
    requires h != [] && var n := |h| - 1;
      AllAsSeen(initial, clients, h[..n], s) && h[n].client < clients && h[n].file in initial
    requires var a := h[|h| - 1];
      (a.op.Open? <==> !IsOpen(h[..|h| - 1], a.client, a.file)) && Shaped(s) && Step(s, a).Some?
    requires c < clients && f in initial && ValidAsSeen(h[..|h| - 1], s, c, f)
    ensures |Step(s, h[|h| - 1]).value.caches| == clients && ValidAsSeen(h, Step(s, h[|h| - 1]).value, c, f)
  {
    hide Coherent, Scanned, RemoteSame, LastClosed, Seen;
    var n := |h| - 1;
    var a := h[n];
    StepShaped(s, a);
    assert AsSeen(initial, h[..n], s, c, f) && AsSeen(initial, h[..n], s, a.client, a.file);
    CoherentAt(s, a.client, a.file);
    CoherentAt(s, c, f);
    if a.op.Close? && s.caches[a.client][a.file].dirty {
      PutIs(s, a.client, a.file, s.caches[a.client][a.file].data, c);
    }
  }

  /** In a disciplined run the copy of an open file is valid exactly when nobody else has closed the file after a write
      since it was opened. */
  lemma {:induction false} ValidUnlessStale(initial: map<Name, int>, clients: nat, h: History, c: nat, f: Name)
    requires Disciplined(initial, clients, h) && c < clients && f in initial
    ensures (forall k :: 0 <= k < |h| ==> h[k].client < clients) && Run(Initial(initial, clients), h).Some?
    ensures |Run(Initial(initial, clients), h).value.caches| == clients
    ensures ValidAsSeen(h, Run(Initial(initial, clients), h).value, c, f)
  {
    hide AsSeen, ValidAsSeen, Step, Coherent;
    Sessions(initial, clients, h);
    if h == [] {
      NobodyYet(Initial(initial, clients), c, f);
    } else {
      var n := |h| - 1;
      Sessions(initial, clients, h[..n]);
      ValidUnlessStale(initial, clients, h[..n], c, f);
      var s := Run(Initial(initial, clients), h[..n]).value;
      assert h[n].client < clients;
      StepSucceeds(initial, clients, h[..n], s, h[n]);
      StepValid(initial, clients, h, s, c, f);
    }
  }

  lemma NobodyYet(s: State, c: nat, f: Name)
    requires c < |s.caches|
    ensures ValidAsSeen([], s, c, f)
  {
  }

  /** Client `c` has opened the file, or closed it after a write, and no other client has closed it after a write
      since. */
  predicate Keeps(h: History, c: nat, f: Name) {
    if h == [] then false
    else
      var n := |h| - 1;
      if Own(h[n], c, f) && (h[n].op.Open? || (h[n].op.Close? && HasWritten(h[..n], c, f))) then true
      else if h[n].file == f && h[n].client != c && h[n].op.Close? && HasWritten(h[..n], h[n].client, f) then false
      else Keeps(h[..n], c, f)
  }

  predicate EverOpened(h: History, c: nat, f: Name) {
    exists k :: 0 <= k < |h| && h[k] == Act(c, Open, f)
  }

  lemma OpenedNext(h: History, c: nat, f: Name)
    requires h != []
    ensures EverOpened(h, c, f) <==> EverOpened(h[..|h| - 1], c, f) || h[|h| - 1] == Act(c, Open, f)
  {
    var g := h[..|h| - 1];
    if EverOpened(g, c, f) {
      var k :| 0 <= k < |g| && g[k] == Act(c, Open, f);
      assert h[k] == g[k];
    }
  }

  /** It has a valid copy then and only then; after a close without a valid copy there is none at all. The server has a
      callback for it if it has ever opened the file. */
  ghost predicate CopyAsKept(h: History, s: State, c: nat, f: Name)
    requires Shaped(s) && c < |s.caches|
  {
    && (f in s.callbacks[c] <==> EverOpened(h, c, f))
    && (f in s.caches[c] && s.caches[c][f].valid <==> Keeps(h, c, f))
    && (h != [] && h[|h| - 1] == Act(c, Close, f) ==> (f in s.caches[c] <==> Keeps(h, c, f)))
  }

  lemma StepKeeps(initial: map<Name, int>, clients: nat, h: History, s: State, c: nat, f: Name)
    requires h != [] && var n := |h| - 1;
      AllAsSeen(initial, clients, h[..n], s) && h[n].client < clients && h[n].file in initial
    requires var a := h[|h| - 1];
      (a.op.Open? <==> !IsOpen(h[..|h| - 1], a.client, a.file)) && Shaped(s) && Step(s, a).Some?
    requires c < clients && f in initial && CopyAsKept(h[..|h| - 1], s, c, f)
    ensures var t := Step(s, h[|h| - 1]).value; Shaped(t) && |t.caches| == clients && CopyAsKept(h, t, c, f)
  {
    hide Coherent, Scanned, RemoteSame, LastClosed, Seen, EverOpened;
    OpenedNext(h, c, f);
    var n := |h| - 1;
    var a := h[n];
    StepShaped(s, a);
    assert AsSeen(initial, h[..n], s, c, f) && AsSeen(initial, h[..n], s, a.client, a.file);
    CoherentAt(s, a.client, a.file);
    CoherentAt(s, c, f);
    if a.op.Close? && s.caches[a.client][a.file].dirty {
      PutIs(s, a.client, a.file, s.caches[a.client][a.file].data, c);
    }
  }

  /** In a disciplined run a client keeps a valid copy from its first open on, also while the file is closed, until
      another client closes the file after a write, and it has one again as soon as it has closed its own write: so the
      next open needs the server exactly if such a close has come in between. */
  lemma {:induction false} CopiesKept(initial: map<Name, int>, clients: nat, h: History, c: nat, f: Name)
    requires Disciplined(initial, clients, h) && c < clients && f in initial
    ensures (forall k :: 0 <= k < |h| ==> h[k].client < clients) && Run(Initial(initial, clients), h).Some?
    ensures |Run(Initial(initial, clients), h).value.caches| == clients
    ensures CopyAsKept(h, Run(Initial(initial, clients), h).value, c, f)
  {
    hide AsSeen, CopyAsKept, Step, Coherent;
    Sessions(initial, clients, h);
    if h == [] {
      NoCopyYet(Initial(initial, clients), c, f);
    } else {
      var n := |h| - 1;
      Sessions(initial, clients, h[..n]);
      CopiesKept(initial, clients, h[..n], c, f);
      var s := Run(Initial(initial, clients), h[..n]).value;
      assert h[n].client < clients;
      StepSucceeds(initial, clients, h[..n], s, h[n]);
      StepKeeps(initial, clients, h, s, c, f);
    }
  }

  lemma NoCopyYet(s: State, c: nat, f: Name)
    requires Shaped(s) && c < |s.caches| && s.caches[c] == map[] && s.callbacks[c] == []
    ensures CopyAsKept([], s, c, f)
  {
  }

  /** The first time a client opens a file it has open already: the second descriptor is counted, and a write not yet
      closed survives, unless another client has closed the file after a write in the meantime. Then the reference and
      the write are lost, and the client sees what that close left. */
  lemma FirstReopen(initial: map<Name, int>, clients: nat, h: History, c: nat, f: Name)
    requires Disciplined(initial, clients, h) && c < clients && f in initial && IsOpen(h, c, f)
    ensures var g := h + [Act(c, Open, f)];
      && (forall k :: 0 <= k < |g| ==> g[k].client < clients)
      && Run(Initial(initial, clients), g).Some?
      && var t := Run(Initial(initial, clients), g).value;
      && c < |t.caches| && f in t.caches[c]
      && t.caches[c][f] ==
         if Stale(h, c, f) then Entry(LastClosed(initial, h, f), false, 1, true)
         else Entry(Seen(initial, h, c, f), HasWritten(h, c, f), 2, true)
  {
    hide Run, Disciplined, IsOpen, HasWritten, Seen, Coherent, Scanned, LastClosed, Stale;
    ValidUnlessStale(initial, clients, h, c, f);
    Sessions(initial, clients, h);
    var start := Initial(initial, clients);
    var s := Run(start, h).value;
    assert AsSeen(initial, h, s, c, f);
    CoherentAt(s, c, f);
    RunOn(start, h, Act(c, Open, f));
  }

  /** After any disciplined run in which two clients have the same file open and have both written to it: one closes,
      and the other opens the file once more. Its own write is gone, unsaved, and its two descriptors count as one. */
  lemma ReopenLosesWrite(initial: map<Name, int>, clients: nat, h: History, c: nat, d: nat, f: Name)
    requires Disciplined(initial, clients, h) && c < clients && d < clients && c != d && f in initial
    requires IsOpen(h, c, f) && HasWritten(h, c, f) && IsOpen(h, d, f) && HasWritten(h, d, f)
    ensures var g := h + [Act(d, Close, f)] + [Act(c, Open, f)];
      && (forall k :: 0 <= k < |g| ==> g[k].client < clients)
      && Run(Initial(initial, clients), g).Some?
      && var t := Run(Initial(initial, clients), g).value;
      c < |t.caches| && f in t.caches[c] && t.caches[c][f] == Entry(Seen(initial, h, d, f), false, 1, true)
  {
    hide Run, Disciplined, IsOpen, HasWritten, Seen, Coherent, Scanned, LastClosed;
    Sessions(initial, clients, h);
    var start := Initial(initial, clients);
    var s := Run(start, h).value;
    assert AsSeen(initial, h, s, c, f) && AsSeen(initial, h, s, d, f);
    CoherentAt(s, c, f);
    CoherentAt(s, d, f);
    RunOn(start, h, Act(d, Close, f));
    PutIs(s, d, f, s.caches[d][f].data, c);
    RunOn(start, h + [Act(d, Close, f)], Act(c, Open, f));
  }

  /** Such a run. */
  lemma BothCanWrite(initial: map<Name, int>, f: Name, v: int, w: int)
    requires f in initial
    ensures var h := [Act(0, Open, f)] + [Act(1, Open, f)] + [Act(0, Write(v), f)] + [Act(1, Write(w), f)];
      && Disciplined(initial, 2, h) && IsOpen(h, 0, f) && HasWritten(h, 0, f) && IsOpen(h, 1, f) && HasWritten(h, 1, f)
      && Seen(initial, h, 0, f) == v && Seen(initial, h, 1, f) == w
  {
    var h1 := [Act(0, Open, f)];
    var h2 := h1 + [Act(1, Open, f)];
    var h3 := h2 + [Act(0, Write(v), f)];
    var h4 := h3 + [Act(1, Write(w), f)];
    OneMore(initial, 2, [], Act(0, Open, f));
    assert [] + h1 == h1;
    OneMore(initial, 2, h1, Act(1, Open, f));
    OneMore(initial, 2, h2, Act(0, Write(v), f));
    OneMore(initial, 2, h3, Act(1, Write(w), f));
    assert h4[..3] == h3 && h3[..2] == h2;
  }

  /** What one more action changes for the client and the file it names. */
  lemma OneMore(initial: map<Name, int>, clients: nat, h: History, a: Act)
    requires Disciplined(initial, clients, h) && a.client < clients && a.file in initial
    requires a.op.Open? <==> !IsOpen(h, a.client, a.file)
    ensures Disciplined(initial, clients, h + [a])
    ensures forall c, f ::
      IsOpen(h + [a], c, f) == if Own(a, c, f) && (a.op.Open? || a.op.Close?) then a.op.Open? else IsOpen(h, c, f)
    ensures forall c, f ::
      HasWritten(h + [a], c, f) == if Own(a, c, f) && !a.op.Read? then a.op.Write? else HasWritten(h, c, f)
  {
    assert (h + [a])[..|h|] == h;
  }

  lemma Overwritten(cache: Cache, f: Name, x: Entry, y: Entry)
    ensures cache[f := x][f := y] == cache[f := y] && cache[f := y] - {f} == cache - {f}
    ensures f in cache ==> cache[f := cache[f]] == cache
  {
  }

  // ---------- the simulator's objects ----------

  class Simulation {
    var contents: map<Name, int>
    var callbacks: seq<seq<Name>>
    var caches: seq<Cache>

    function Now(): State
      reads this
    {
      State(contents, callbacks, caches)
    }

    predicate Valid()
      reads this
    {
      |callbacks| == |caches|
    }

    constructor (contents: map<Name, int>, clients: nat)
      ensures Valid() && Now() == Initial(contents, clients) && Coherent(Now())
    {
      this.contents := contents;
      callbacks := NoNames(clients);
      caches := Empties(clients);
    }

    /** cache.invalidate: a file not in the cache is ignored. */
    method Invalidate(c: nat, f: Name)
      requires c < |caches|
      modifies this`caches
      ensures caches == old(caches)[c := Invalidated(old(caches)[c], f)]
    {
      if f !in caches[c] {
        assert caches == caches[c := caches[c]];
        return;
      }
      caches := caches[c := caches[c][f := caches[c][f].(valid := false)]];
    }

    method ServerGet(c: nat, f: Name) returns (data: int)
      requires Valid() && c < |caches| && f in contents
      modifies this`callbacks
      ensures Now() == Remember(old(Now()), c, f) && data == contents[f]
    {
      if f !in callbacks[c] { callbacks := callbacks[c := callbacks[c] + [f]]; }
      data := contents[f];
    }

    method ServerPut(c: nat, f: Name, value: int)
      requires Valid()
      modifies this`contents, this`caches
      ensures Valid() && Now() == Put(old(Now()), c, f, value)
    {
      ghost var s := Now();
      contents := contents[f := value];
      for i := 0 to |callbacks|
        invariant Valid() && contents == s.contents[f := value] && caches == Scanned(s, c, f, i)
      {
        if f in callbacks[i] && i != c { Invalidate(i, f); }
      }
    }

    method OpenFile(c: nat, f: Name) returns (ok: bool)
      requires Valid() && c < |caches|
      modifies this
      ensures Valid() && ok == GetFile(old(Now()), c, f).Some?
      ensures Now() == if ok then GetFile(old(Now()), c, f).value else old(Now())
    {
      ghost var s := Now();
      if !(f in caches[c] && caches[c][f].valid) {
        if f !in contents { return false; }
        var data := ServerGet(c, f);
        caches := caches[c := caches[c][f := Entry(data, false, 0, true)]];
        assert caches[c][f := Entry(data, false, 1, true)] == s.caches[c][f := Entry(data, false, 1, true)];
      }
      caches := caches[c := caches[c][f := caches[c][f].(refcnt := caches[c][f].refcnt + 1)]];
      assert Now().caches == GetFile(s, c, f).value.caches;
      ok := true;
    }

    method Shut(c: nat, f: Name) returns (ok: bool)
      requires Valid() && c < |caches|
      modifies this
      ensures Valid() && ok == CloseFile(old(Now()), c, f).Some?
      ensures Now() == if ok then CloseFile(old(Now()), c, f).value else old(Now())
    {
      hide Scanned;
      if f !in caches[c] { return false; }
      ghost var s := Now();
      var e := caches[c][f];
      if e.dirty {
        if f !in contents { return false; }
        PutIs(s, c, f, e.data, c);
        ServerPut(c, f, e.data);
        caches := caches[c := caches[c][f := caches[c][f].(dirty := false, valid := true)]];
      }
      ghost var t := if e.dirty then Put(s, c, f, e.data) else s;
      assert t.caches[c] == s.caches[c];
      var left := Entry(e.data, false, e.refcnt - 1, e.dirty || e.valid);
      Overwritten(s.caches[c], f, caches[c][f], left);
      caches := caches[c := caches[c][f := caches[c][f].(refcnt := caches[c][f].refcnt - 1)]];
      assert caches == t.caches[c := s.caches[c][f := left]];
      if !caches[c][f].valid && caches[c][f].refcnt == 0 {
        caches := caches[c := caches[c] - {f}];
        assert caches == t.caches[c := s.caches[c] - {f}];
      }
      ok := true;
    }

    /** One client step; false where an assertion fails. Coherence holds in every schedule. */
    method Step(a: Act) returns (ok: bool)
      requires Valid() && a.client < |caches|
      modifies this
      ensures Valid() && ok == Afs.Step(old(Now()), a).Some?
      ensures Now() == if ok then Afs.Step(old(Now()), a).value else old(Now())
      ensures Coherent(old(Now())) ==> Coherent(Now())
    {
      hide Coherent, GetFile, CloseFile;
      var c, f := a.client, a.file;
      ghost var s := Now();
      match a.op {
        case Open => ok := OpenFile(c, f);
        case Close => ok := Shut(c, f);
        case Read => ok := f in caches[c];
        case Write(v) =>
          ok := f in caches[c];
          if ok { caches := caches[c := caches[c][f := caches[c][f].(data := v, dirty := true)]]; }
      }
      if ok && Coherent(s) { StepCoherent(s, a); }
    }
  }
}
