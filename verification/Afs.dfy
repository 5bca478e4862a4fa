/** Callback-based caching of dist-afs/afs.py: server, client caches, and what every schedule of actions does. */
module Afs {

  type Name = string

  /** A client's cached copy. */
  datatype Entry = Entry(data: int, dirty: bool, refcnt: int, valid: bool)

  type Cache = map<Name, Entry>

  datatype State = State(contents: map<Name, int>, callbacks: seq<seq<Name>>, caches: seq<Cache>)

  /** Reads, writes and closes name the file their descriptor was opened for. */
  datatype Op = Open | Read | Write(value: int) | Close

  datatype Act = Act(client: nat, op: Op, file: Name)

  datatype Option<T> = None | Some(value: T)

  predicate Shaped(s: State) { |s.callbacks| == |s.caches| }

  // ---------- server ----------

  /** The server remembers who fetched a file, and never forgets. */
  function Remember(s: State, c: nat, f: Name): State
    requires c < |s.callbacks|
  {
    if f in s.callbacks[c] then s else s.(callbacks := s.callbacks[c := s.callbacks[c] + [f]])
  }

  function Invalidated(cache: Cache, f: Name): Cache {
    if f in cache then cache[f := cache[f].(valid := false)] else cache
  }

  /** The caches after the callback scan has passed the first `n` clients. */
  function Scanned(s: State, c: nat, f: Name, n: nat): (r: seq<Cache>)
    requires Shaped(s) && n <= |s.caches|
    ensures |r| == |s.caches|
  {
    if n == 0 then s.caches
    else
      var before, i := Scanned(s, c, f, n - 1), n - 1;
      if f in s.callbacks[i] && i != c then before[i := Invalidated(before[i], f)] else before
  }

  function Put(s: State, c: nat, f: Name, v: int): State
    requires Shaped(s)
  {
    State(s.contents[f := v], s.callbacks, Scanned(s, c, f, |s.caches|))
  }

  // ---------- client ----------

  function SetEntry(s: State, c: nat, f: Name, e: Entry): State
    requires c < |s.caches|
  {
    s.(caches := s.caches[c := s.caches[c][f := e]])
  }

  /** getfile: a valid copy is used as it is; otherwise the server's contents are fetched. */
  function GetFile(s: State, c: nat, f: Name): Option<State>
    requires Shaped(s) && c < |s.caches|
  {
    if f in s.caches[c] && s.caches[c][f].valid then
      Some(SetEntry(s, c, f, s.caches[c][f].(refcnt := s.caches[c][f].refcnt + 1)))
    else if f !in s.contents then None
    else Some(SetEntry(Remember(s, c, f), c, f, Entry(s.contents[f], false, 1, true)))
  }

  /** A close writes a dirty copy back; an invalidated copy is dropped with its last reference. */
  function CloseFile(s: State, c: nat, f: Name): Option<State>
    requires Shaped(s) && c < |s.caches|
  {
    if f !in s.caches[c] || (s.caches[c][f].dirty && f !in s.contents) then None
    else
      var e := s.caches[c][f];
      var t := if e.dirty then Put(s, c, f, e.data) else s;
      var e' := Entry(e.data, false, e.refcnt - 1, e.dirty || e.valid);
      if !e'.valid && e'.refcnt == 0 then Some(t.(caches := t.caches[c := t.caches[c] - {f}]))
      else Some(SetEntry(t, c, f, e'))
  }

  /** One client step; None where an assertion of the simulator fails. */
  function Step(s: State, a: Act): Option<State>
    requires Shaped(s) && a.client < |s.caches|
  {
    var c, f := a.client, a.file;
    match a.op
    case Open => GetFile(s, c, f)
    case Read => if f in s.caches[c] then Some(s) else None
    case Write(v) => if f in s.caches[c]
      then Some(SetEntry(s, c, f, s.caches[c][f].(data := v, dirty := true))) else None
    case Close => CloseFile(s, c, f)
  }

  // ---------- coherence, in every schedule ----------

  ghost predicate EntryOk(s: State, c: nat, f: Name)
    requires Shaped(s) && c < |s.caches|
  {
    f in s.caches[c] ==>
      && f in s.contents && f in s.callbacks[c]
      && (s.caches[c][f].valid && !s.caches[c][f].dirty ==> s.caches[c][f].data == s.contents[f])
  }

  /** Every copy is covered by a callback, and a valid clean copy is the server's current contents. */
  ghost predicate Coherent(s: State) {
    Shaped(s) && forall c: nat, f :: c < |s.caches| ==> EntryOk(s, c, f)
  }

  /** What a remote action may do to a copy: nothing but make it invalid. */
  ghost predicate OnlyInvalidates(e: Entry, e': Entry) { e' == e || e' == e.(valid := false) }

  ghost predicate RemoteSame(s: State, t: State, c: nat)
    requires c < |s.caches| == |t.caches|
  {
    && t.caches[c].Keys == s.caches[c].Keys
    && forall f :: f in s.caches[c] ==> OnlyInvalidates(s.caches[c][f], t.caches[c][f])
  }

  lemma {:induction false} ScannedIs(s: State, c: nat, f: Name, n: nat, i: nat)
    requires Shaped(s) && n <= |s.caches| && i < |s.caches|
    ensures Scanned(s, c, f, n)[i] == if i < n && f in s.callbacks[i] && i != c
      then Invalidated(s.caches[i], f) else s.caches[i]
  {
    if n > 0 { ScannedIs(s, c, f, n - 1, i); }
  }

  lemma PutIs(s: State, c: nat, f: Name, v: int, i: nat)
    requires Shaped(s) && i < |s.caches|
    ensures Put(s, c, f, v).caches[i] == if f in s.callbacks[i] && i != c
      then Invalidated(s.caches[i], f) else s.caches[i]
  {
    ScannedIs(s, c, f, |s.caches|, i);
  }

  /** A put leaves every other client coherent: whoever has a valid copy is called back. */
  lemma PutCoherent(s: State, c: nat, f: Name, v: int, i: nat, g: Name)
    requires Coherent(s) && c < |s.caches| && i < |s.caches| && f in s.contents && (i != c || g != f)
    ensures EntryOk(Put(s, c, f, v), i, g)
  {
    PutIs(s, c, f, v, i);
    assert EntryOk(s, i, g);
  }

  lemma PutRemote(s: State, c: nat, f: Name, v: int, i: nat)
    requires Shaped(s) && i < |s.caches|
    ensures RemoteSame(s, Put(s, c, f, v), i)
  {
    PutIs(s, c, f, v, i);
  }

  /** Every step keeps coherence, and changes no other client's data. */
  lemma StepCoherent(s: State, a: Act)
    requires Coherent(s) && a.client < |s.caches| && Step(s, a).Some?
    ensures var t := Step(s, a).value;
      Coherent(t) && |t.caches| == |s.caches| && forall i: nat :: i < |s.caches| && i != a.client ==>
        RemoteSame(s, t, i)
  {
    hide Step, EntryOk;
    StepShaped(s, a);
    var t := Step(s, a).value;
    forall i: nat, g | i < |t.caches| ensures EntryOk(t, i, g) { EntryAfter(s, a, i, g); }
    forall i: nat | i < |s.caches| && i != a.client ensures RemoteSame(s, t, i) { RemoteAfter(s, a, i); }
  }

  lemma RemoteAfter(s: State, a: Act, i: nat)
    requires Shaped(s) && a.client < |s.caches| && i < |s.caches| && i != a.client && Step(s, a).Some?
    ensures |Step(s, a).value.caches| == |s.caches| && RemoteSame(s, Step(s, a).value, i)
  {
    var c, f := a.client, a.file;
    if a.op.Close? && s.caches[c][f].dirty { PutRemote(s, c, f, s.caches[c][f].data, i); }
  }

  lemma EntryAfter(s: State, a: Act, i: nat, g: Name)
    requires Coherent(s) && a.client < |s.caches| && i < |s.caches| && Step(s, a).Some?
    ensures Shaped(Step(s, a).value) && |Step(s, a).value.caches| == |s.caches| && EntryOk(Step(s, a).value, i, g)
  {
    hide Coherent, Scanned;
    var c, f := a.client, a.file;
    CoherentAt(s, i, g);
    CoherentAt(s, c, f);
    StepShaped(s, a);
    if a.op.Close? && s.caches[c][f].dirty {
      PutIs(s, c, f, s.caches[c][f].data, c);
      if i != c || g != f {
        PutCoherent(s, c, f, s.caches[c][f].data, i, g);
      } else {
        assert Put(s, c, f, s.caches[c][f].data).callbacks == s.callbacks;
      }
    }
  }

  lemma CoherentAt(s: State, i: nat, g: Name)
    requires Coherent(s) && i < |s.caches|
    ensures Shaped(s) && EntryOk(s, i, g)
  {
  }

  /** A schedule: any actions of any clients in any order. */
  function Run(s: State, acts: seq<Act>): Option<State>
    requires Shaped(s) && (forall k :: 0 <= k < |acts| ==> acts[k].client < |s.caches|)
    ensures Run(s, acts).Some? ==> Shaped(Run(s, acts).value) && |Run(s, acts).value.caches| == |s.caches|
  {
    if acts == [] then Some(s)
    else
      var n := |acts| - 1;
      var r := Run(s, acts[..n]);
      if r.None? then None
      else
        assert acts[n].client < |s.caches|;
        if Step(r.value, acts[n]).Some? then StepShaped(r.value, acts[n]); Step(r.value, acts[n]) else None
  }

  /** In every schedule, whatever the clients do, every reachable state is coherent. */
  lemma {:induction false} RunCoherent(s: State, acts: seq<Act>)
    requires Coherent(s) && Shaped(s)
      && (forall k :: 0 <= k < |acts| ==> acts[k].client < |s.caches|) && Run(s, acts).Some?
    ensures Coherent(Run(s, acts).value)
  {
    hide Step, EntryOk;
    if acts != [] {
      var n := |acts| - 1;
      assert acts[n].client < |s.caches|;
      RunCoherent(s, acts[..n]);
      StepCoherent(Run(s, acts[..n]).value, acts[n]);
    }
  }

  lemma StepShaped(s: State, a: Act)
    requires Shaped(s) && a.client < |s.caches| && Step(s, a).Some?
    ensures Shaped(Step(s, a).value) && |Step(s, a).value.caches| == |s.caches|
  {
  }
}
