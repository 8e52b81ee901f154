/** Forwarded copies in nPVR/stdsoap2.cpp: soap_id_forward records that a place is to receive a copy of an
    object that has not been read yet, and the second phase of soap_resolve makes the copies. An object
    may itself contain places that wait for a copy, so it is copied only when none is left in it. The
    places of one id are chained through their own first words. */
module Copies {
  import opened Chains

  /** struct soap_ilist, without the links; flist holds the places registered with a copy function. */
  datatype Entry = Entry(typ: int, size: nat, level: nat, ptr: Addr, copy: Addr, flist: seq<Addr>)

  /** Memory in words, the table, and the places in each chain. */
  datatype Store = Store(mem: map<Addr, nat>, iht: map<string, Entry>, chain: map<string, seq<Addr>>)

  predicate In(a: Addr, start: Addr, n: nat) {
    start <= a < start + n
  }

  predicate Apart(s: Addr, m: nat, t: Addr, n: nat) {
    s + m <= t || t + n <= s
  }

  predicate Nested(s: Addr, m: nat, t: Addr, n: nat) {
    t <= s && s + m <= t + n
  }

  predicate Cells(mem: map<Addr, nat>, s: Addr, n: nat) {
    forall a :: s <= a < s + n ==> a in mem
  }

  predicate Free(mem: map<Addr, nat>, s: Addr, n: nat) {
    forall a :: s <= a < s + n ==> a !in mem
  }

  predicate Entered(v: Store, id: string) {
    id in v.iht && v.iht[id].ptr != NULL
  }

  /** t is waiting for a copy of the object of id. */
  predicate Waits(v: Store, id: string, t: Addr) {
    id in v.iht && id in v.chain && (t in v.chain[id] || t in v.iht[id].flist)
  }

  predicate Pending(v: Store, id: string) {
    id in v.iht && id in v.chain && (v.chain[id] != [] || v.iht[id].flist != [])
  }

  /** A place waiting for j lies in the object of id. */
  ghost predicate DependsOn(v: Store, id: string, j: string) {
    Entered(v, id) && exists t :: Waits(v, j, t) && In(t, v.iht[id].ptr, v.iht[id].size)
  }

  ghost predicate Blocked(v: Store, id: string) {
    exists j :: DependsOn(v, id, j)
  }

  /** The chains are threaded through memory. */
  ghost predicate Threaded(v: Store) {
    && NULL !in v.mem && v.chain.Keys == v.iht.Keys
    && (forall id :: id in v.iht ==> Chained(v.mem, v.iht[id].copy, v.chain[id]))
  }

  /** Places do not overlap, and each lies inside an object or outside of it. */
  ghost predicate Layout(v: Store) {
    && (forall i, s :: Waits(v, i, s) ==> v.iht[i].size > 0 && Cells(v.mem, s, v.iht[i].size))
    && (forall i, s, j, t :: Waits(v, i, s) && Waits(v, j, t) && (i != j || s != t) ==>
          Apart(s, v.iht[i].size, t, v.iht[j].size))
    && (forall i, j, t :: Entered(v, i) && Waits(v, j, t) ==>
          || Apart(t, v.iht[j].size, v.iht[i].ptr, v.iht[i].size)
          || Nested(t, v.iht[j].size, v.iht[i].ptr, v.iht[i].size))
    && (forall i :: Entered(v, i) ==> Cells(v.mem, v.iht[i].ptr, v.iht[i].size))
  }

  /** Apart is: no address in both. */
  lemma ApartIff(s: Addr, m: nat, t: Addr, n: nat)
    requires m > 0 && n > 0
    ensures Apart(s, m, t, n) <==> forall a: Addr :: !(In(a, s, m) && In(a, t, n))
  {
    assert In(s, s, m) && In(t, t, n);
  }

  /** Nested is: every address of the one in the other. */
  lemma NestedIff(s: Addr, m: nat, t: Addr, n: nat)
    requires m > 0
    ensures Nested(s, m, t, n) <==> forall a: Addr :: In(a, s, m) ==> In(a, t, n)
  {
    assert In(s, s, m) && In(s + m - 1, s, m);
  }

  /** memcpy of n words. */
  function Memcpy(mem: map<Addr, nat>, dst: Addr, src: Addr, n: nat): (m: map<Addr, nat>)
    requires Cells(mem, dst, n) && Cells(mem, src, n) && Apart(dst, n, src, n)
    ensures m.Keys == mem.Keys
    ensures forall a: Addr {:trigger In(a, dst, n)} :: In(a, dst, n) ==> m[a] == mem[src + (a - dst)]
    ensures forall a: Addr {:trigger m[a]} :: a in mem && !In(a, dst, n) ==> m[a] == mem[a]
  {
    map a | a in mem :: if In(a, dst, n) then mem[src + (a - dst)] else mem[a]
  }

  /** Every place of ts holds the n words at src, and nothing else has changed. */
  ghost predicate CopiedTo(mem0: map<Addr, nat>, mem: map<Addr, nat>, ts: set<Addr>, src: Addr, n: nat) {
    && mem.Keys == mem0.Keys && Cells(mem, src, n)
    && (forall t :: t in ts ==> Holds(mem, t, src, n))
    && (forall a: Addr {:trigger mem[a]} {:trigger Hit(ts, n, a)} :: a in mem && !Hit(ts, n, a) ==> mem[a] == mem0[a])
  }

  ghost predicate Hit(ts: set<Addr>, n: nat, a: Addr) {
    exists t :: t in ts && In(a, t, n)
  }

  /** The n words at t are those at src. */
  ghost predicate Holds(mem: map<Addr, nat>, t: Addr, src: Addr, n: nat) {
    && Cells(mem, t, n) && Cells(mem, src, n)
    && (forall a: Addr {:trigger In(a, t, n)} :: In(a, t, n) ==> mem[a] == mem[src + (a - t)])
  }

  lemma FilledByCopy(mem: map<Addr, nat>, t: Addr, src: Addr, n: nat)
    requires Cells(mem, t, n) && Cells(mem, src, n) && Apart(t, n, src, n)
    ensures Holds(Memcpy(mem, t, src, n), t, src, n)
  {
    var m := Memcpy(mem, t, src, n);
    forall a: Addr | In(a, t, n)
      ensures m[a] == m[src + (a - t)]
    {
      assert !In(src + (a - t), t, n);
    }
  }

  lemma HoldsStill(mem: map<Addr, nat>, t: Addr, s: Addr, src: Addr, n: nat)
    requires Cells(mem, t, n) && Apart(t, n, src, n) && Apart(s, n, t, n) && Holds(mem, s, src, n)
    ensures Holds(Memcpy(mem, t, src, n), s, src, n)
  {
    var m := Memcpy(mem, t, src, n);
    forall a: Addr | In(a, s, n)
      ensures m[a] == m[src + (a - s)]
    {
      assert !In(src + (a - s), t, n) && !In(a, t, n);
    }
  }

  lemma CopyOneMore(
      mem0: map<Addr, nat>, mem: map<Addr, nat>, ts: set<Addr>, t: Addr, src: Addr, n: nat)
    requires CopiedTo(mem0, mem, ts, src, n)
    requires Cells(mem, t, n) && Apart(t, n, src, n)
    requires forall s :: s in ts && s != t ==> Apart(s, n, t, n)
    ensures CopiedTo(mem0, Memcpy(mem, t, src, n), ts + {t}, src, n)
  {
    var m := Memcpy(mem, t, src, n);
    forall s | s in ts + {t}
      ensures Holds(m, s, src, n)
    {
      if s == t {
        FilledByCopy(mem, t, src, n);
      } else {
        HoldsStill(mem, t, s, src, n);
      }
    }
    forall a | a in m && !Hit(ts + {t}, n, a)
      ensures m[a] == mem0[a]
    {
      NotHitBefore(ts, t, n, a);
    }
  }

  lemma NotHitBefore(ts: set<Addr>, t: Addr, n: nat, a: Addr)
    requires !Hit(ts + {t}, n, a)
    ensures !In(a, t, n) && !Hit(ts, n, a)
  {
    assert t in ts + {t};
    forall s | s in ts
      ensures !In(a, s, n)
    {
      assert s in ts + {t};
    }
  }

  ghost function SetOf(c: seq<Addr>): set<Addr> {
    set t | t in c
  }

  ghost function Places(v: Store, id: string): set<Addr>
    requires id in v.iht && id in v.chain
  {
    SetOf(v.chain[id]) + SetOf(v.iht[id].flist)
  }

  /** The object of id has been copied to every place that waited for it. */
  ghost predicate CopyStep(v: Store, w: Store, id: string) {
    && id in v.iht && id in v.chain
    && w.iht == v.iht[id := v.iht[id].(copy := NULL, flist := [])] && w.chain == v.chain[id := []]
    && CopiedTo(v.mem, w.mem, Places(v, id), v.iht[id].ptr, v.iht[id].size)
  }

  /** What has become of the places and objects of v0 when the ids done have been copied. */
  ghost predicate Progressed(v0: Store, v: Store, done: set<string>) {
    && v.iht.Keys == v0.iht.Keys && v.chain.Keys == v0.chain.Keys && v.mem.Keys == v0.mem.Keys
    && (forall id {:trigger EntryAfter(v0, v, done, id)} :: id in v0.iht ==> EntryAfter(v0, v, done, id))
    && (forall id {:trigger Settled(v0, v, id)} :: id in done ==> Settled(v0, v, id))
    && (forall a: Addr {:trigger Written(v0, done, a)} :: a in v0.mem && !Written(v0, done, a) ==> v.mem[a] == v0.mem[a])
  }

  ghost predicate EntryAfter(v0: Store, v: Store, done: set<string>, id: string)
    requires id in v0.iht
  {
    && id in v.iht && id in v.chain && id in v0.chain
    && (if id in done then v.iht[id] == v0.iht[id].(copy := NULL, flist := []) && v.chain[id] == []
        else v.iht[id] == v0.iht[id] && v.chain[id] == v0.chain[id])
  }

  /** Every place that waited for id holds its object, which has no place left in it that waits. */
  ghost predicate Settled(v0: Store, v: Store, id: string) {
    && Entered(v0, id) && Pending(v0, id) && !Blocked(v, id)
    && (forall t :: Waits(v0, id, t) ==> Holds(v.mem, t, v0.iht[id].ptr, v0.iht[id].size))
  }

  ghost predicate Written(v0: Store, done: set<string>, a: Addr) {
    exists id, t :: id in done && Waits(v0, id, t) && In(a, t, v0.iht[id].size)
  }

  /** id is pending, and was never entered or depends on one of ids. */
  ghost predicate HeldUp(v: Store, ids: set<string>, id: string) {
    Pending(v, id) && (v.iht[id].ptr == NULL || exists j :: j in ids && DependsOn(v, id, j))
  }

  /** Nothing can be copied for id now. */
  ghost predicate Held(v: Store, id: string) {
    Entered(v, id) && Pending(v, id) ==> Blocked(v, id)
  }

  ghost predicate AllHeld(v: Store, but: set<string>) {
    forall id {:trigger Held(v, id)} :: id in v.iht && id !in but ==> Held(v, id)
  }

  lemma OneHeldMore(v: Store, todo: set<string>, id: string)
    requires AllHeld(v, todo) && Held(v, id)
    ensures AllHeld(v, todo - {id})
  {
  }

  /** Ids that hold one another up. */
  ghost predicate Stuck(v: Store, ids: set<string>) {
    forall id {:trigger HeldUp(v, ids, id)} :: id in ids ==> HeldUp(v, ids, id)
  }

  ghost predicate Hopeless(v: Store, id: string) {
    exists ids :: id in ids && Stuck(v, ids)
  }

  ghost predicate Spares(v0: Store, done: set<string>) {
    forall ids :: Stuck(v0, ids) ==> ids !! done
  }

  lemma FewerWait(v: Store, w: Store, id: string)
    requires CopyStep(v, w, id)
    ensures forall j, t :: Waits(w, j, t) ==> j != id && Waits(v, j, t)
    ensures forall j, t :: Waits(v, j, t) && j != id ==> Waits(w, j, t)
  {
  }

  lemma StepKeepsLayout(v: Store, w: Store, id: string)
    requires CopyStep(v, w, id) && Layout(v)
    ensures Layout(w)
  {
    FewerWait(v, w, id);
  }

  /** The places of one id are not written while another is copied. */
  lemma OthersNotHit(v: Store, id: string, j: string, t: Addr, a: Addr)
    requires Layout(v) && id in v.iht && id in v.chain && Waits(v, j, t) && j != id && In(a, t, v.iht[j].size)
    ensures !Hit(Places(v, id), v.iht[id].size, a)
  {
    forall s | s in Places(v, id)
      ensures !In(a, s, v.iht[id].size)
    {
      assert Waits(v, id, s);
    }
  }

  lemma StepKeepsThreads(v: Store, w: Store, id: string)
    requires CopyStep(v, w, id) && Layout(v) && Threaded(v)
    ensures Threaded(w)
  {
    forall j | j in w.iht
      ensures Chained(w.mem, w.iht[j].copy, w.chain[j])
    {
      if j != id {
        assert Chained(v.mem, v.iht[j].copy, v.chain[j]);
        forall k | 0 <= k < |v.chain[j]|
          ensures w.mem[v.chain[j][k]] == v.mem[v.chain[j][k]]
        {
          var t := v.chain[j][k];
          assert Waits(v, j, t);
          OthersNotHit(v, id, j, t, t);
        }
      }
    }
  }

  lemma PlaceBlocks(v: Store, id: string, j: string, t: Addr)
    requires Entered(v, id) && Waits(v, j, t) && In(t, v.iht[id].ptr, v.iht[id].size)
    ensures Blocked(v, id)
  {
    assert DependsOn(v, id, j);
  }

  lemma BlockedBefore(v: Store, w: Store, id: string, j: string)
    requires CopyStep(v, w, id) && Blocked(w, j)
    ensures Blocked(v, j)
  {
    FewerWait(v, w, id);
    var k :| DependsOn(w, j, k);
    var t :| Waits(w, k, t) && In(t, w.iht[j].ptr, w.iht[j].size);
    PlaceBlocks(v, j, k, t);
  }

  /** An object no place waits in is not written while an id that waits is copied. */
  lemma SourceNotHit(v: Store, id: string, j: string, a: Addr)
    requires Layout(v) && id in v.iht && id in v.chain && Entered(v, j) && !Blocked(v, j)
    requires In(a, v.iht[j].ptr, v.iht[j].size)
    ensures !Hit(Places(v, id), v.iht[id].size, a)
  {
    forall s | s in Places(v, id)
      ensures !In(a, s, v.iht[id].size)
    {
      assert Waits(v, id, s);
      if In(s, v.iht[j].ptr, v.iht[j].size) {
        PlaceBlocks(v, j, id, s);
      }
    }
  }

  lemma WaitsStill(v0: Store, v: Store, done: set<string>, id: string, t: Addr)
    requires Progressed(v0, v, done) && id !in done
    ensures Waits(v0, id, t) <==> Waits(v, id, t)
    ensures Pending(v0, id) <==> Pending(v, id)
  {
    if id in v0.iht {
      assert EntryAfter(v0, v, done, id);
    }
  }

  /** The word a of a place that has been filled, and the word it was filled from, are left alone. */
  ghost predicate LeftAlone(v: Store, w: Store, t: Addr, src: Addr, a: Addr)
    requires t <= a
  {
    && a in v.mem && a in w.mem && w.mem[a] == v.mem[a]
    && src + (a - t) in v.mem && src + (a - t) in w.mem && w.mem[src + (a - t)] == v.mem[src + (a - t)]
  }

  lemma FilledLeftAlone(v0: Store, v: Store, w: Store, done: set<string>, id: string, j: string, t: Addr, a: Addr)
    requires Progressed(v0, v, done) && Layout(v0) && Layout(v) && CopyStep(v, w, id) && id !in done && j in done
    requires Waits(v0, j, t) && In(a, t, v0.iht[j].size)
    ensures LeftAlone(v, w, t, v0.iht[j].ptr, a)
  {
    assert Settled(v0, v, j) && EntryAfter(v0, v, done, j);
    assert Holds(v.mem, t, v0.iht[j].ptr, v0.iht[j].size);
    PlaceNotHit(v0, v, done, id, j, t, a);
    SourceNotHit(v, id, j, v0.iht[j].ptr + (a - t));
  }

  lemma HoldsAfter(v: Store, w: Store, t: Addr, src: Addr, n: nat)
    requires Holds(v.mem, t, src, n) && v.mem.Keys == w.mem.Keys
    requires forall a: Addr {:trigger In(a, t, n)} :: In(a, t, n) ==> LeftAlone(v, w, t, src, a)
    ensures Holds(w.mem, t, src, n)
  {
  }

  lemma StillHolds(v0: Store, v: Store, w: Store, done: set<string>, id: string, j: string, t: Addr)
    requires Progressed(v0, v, done) && Layout(v0) && Layout(v) && CopyStep(v, w, id) && id !in done && j in done
    requires Waits(v0, j, t)
    ensures Holds(w.mem, t, v0.iht[j].ptr, v0.iht[j].size)
  {
    var src, n := v0.iht[j].ptr, v0.iht[j].size;
    forall a: Addr | In(a, t, n)
      ensures LeftAlone(v, w, t, src, a)
    {
      FilledLeftAlone(v0, v, w, done, id, j, t, a);
    }
    assert Settled(v0, v, j);
    HoldsAfter(v, w, t, src, n);
  }

  lemma StillSettled(v0: Store, v: Store, w: Store, done: set<string>, id: string, j: string)
    requires Progressed(v0, v, done) && Layout(v0) && Layout(v) && CopyStep(v, w, id) && id !in done && j in done
    ensures Settled(v0, w, j)
  {
    assert Settled(v0, v, j);
    if Blocked(w, j) {
      BlockedBefore(v, w, id, j);
    }
    forall t | Waits(v0, j, t)
      ensures Holds(w.mem, t, v0.iht[j].ptr, v0.iht[j].size)
    {
      StillHolds(v0, v, w, done, id, j, t);
    }
  }

  /** A place that has been filled is not written again. */
  lemma PlaceNotHit(v0: Store, v: Store, done: set<string>, id: string, j: string, t: Addr, a: Addr)
    requires Progressed(v0, v, done) && Layout(v0) && id in v.iht && id in v.chain && id !in done
    requires j in done && Waits(v0, j, t) && In(a, t, v0.iht[j].size)
    ensures !Hit(Places(v, id), v.iht[id].size, a)
  {
    assert EntryAfter(v0, v, done, id);
    OthersNotHit(v0, id, j, t, a);
    assert Places(v, id) == Places(v0, id);
  }

  lemma NowSettled(v0: Store, v: Store, w: Store, done: set<string>, id: string)
    requires Progressed(v0, v, done) && CopyStep(v, w, id) && id !in done
    requires Entered(v, id) && Pending(v, id) && !Blocked(v, id)
    ensures Settled(v0, w, id)
  {
    assert EntryAfter(v0, v, done, id);
    if Blocked(w, id) {
      BlockedBefore(v, w, id, id);
    }
    forall t | Waits(v0, id, t)
      ensures Holds(w.mem, t, v0.iht[id].ptr, v0.iht[id].size)
    {
      assert t in Places(v, id);
    }
  }

  lemma StepProgresses(v0: Store, v: Store, w: Store, done: set<string>, id: string)
    requires Progressed(v0, v, done) && Layout(v0) && Layout(v) && CopyStep(v, w, id) && id !in done
    requires Entered(v, id) && Pending(v, id) && !Blocked(v, id)
    ensures Progressed(v0, w, done + {id})
  {
    forall j | j in v0.iht
      ensures EntryAfter(v0, w, done + {id}, j)
    {
      assert EntryAfter(v0, v, done, j);
    }
    forall j | j in done + {id}
      ensures Settled(v0, w, j)
    {
      if j == id {
        NowSettled(v0, v, w, done, id);
      } else {
        StillSettled(v0, v, w, done, id, j);
      }
    }
    forall a | a in v0.mem && !Written(v0, done + {id}, a)
      ensures w.mem[a] == v0.mem[a]
    {
      assert EntryAfter(v0, v, done, id);
      assert !Written(v0, done, a);
      assert !Hit(Places(v, id), v.iht[id].size, a) by {
        forall t | t in Places(v, id)
          ensures !In(a, t, v.iht[id].size)
        {
          assert Waits(v0, id, t);
        }
      }
    }
  }

  lemma StepSpares(v0: Store, v: Store, done: set<string>, id: string)
    requires Progressed(v0, v, done) && Spares(v0, done) && id !in done
    requires Entered(v, id) && !Blocked(v, id)
    ensures Spares(v0, done + {id})
  {
    forall ids | Stuck(v0, ids)
      ensures ids !! done + {id}
    {
      if id in ids {
        assert EntryAfter(v0, v, done, id) && HeldUp(v0, ids, id);
        var j :| j in ids && DependsOn(v0, id, j);
        var t :| Waits(v0, j, t) && In(t, v0.iht[id].ptr, v0.iht[id].size);
        WaitsStill(v0, v, done, j, t);
        PlaceBlocks(v, id, j, t);
      }
    }
  }

  /** When no id can be copied any more, those still pending hold one another up. */
  lemma LeftoversAreStuck(v0: Store, v: Store, done: set<string>)
    requires Progressed(v0, v, done)
    requires AllHeld(v, {})
    ensures forall id :: Pending(v, id) ==> Hopeless(v0, id)
  {
    var left := set id | id in v.iht && Pending(v, id);
    forall id | id in left
      ensures HeldUp(v0, left, id)
    {
      assert EntryAfter(v0, v, done, id);
      if v0.iht[id].ptr != NULL {
        assert Held(v, id);
        var j :| DependsOn(v, id, j);
        var t :| Waits(v, j, t) && In(t, v.iht[id].ptr, v.iht[id].size);
        assert EntryAfter(v0, v, done, j);
        assert Waits(v0, j, t);
        assert j in left && DependsOn(v0, id, j);
      }
    }
    assert Stuck(v0, left);
  }

  ghost predicate RankedAbove(v: Store, rank: map<string, nat>, i: string, j: string) {
    DependsOn(v, i, j) ==> i in rank && j in rank && rank[j] < rank[i]
  }

  /** Ids ranked above those they depend on, all of them entered, do not hold one another up. */
  lemma {:induction false} RankedIsNotStuck(v: Store, rank: map<string, nat>, ids: set<string>, id: string)
    requires forall i, j {:trigger RankedAbove(v, rank, i, j)} :: RankedAbove(v, rank, i, j)
    requires forall i :: Pending(v, i) ==> Entered(v, i)
    requires id in ids && id in rank
    ensures !Stuck(v, ids)
    decreases rank[id]
  {
    if Stuck(v, ids) {
      assert HeldUp(v, ids, id) && Entered(v, id);
      var j :| j in ids && DependsOn(v, id, j);
      assert RankedAbove(v, rank, id, j);
      RankedIsNotStuck(v, rank, ids, j);
    }
  }

  /** Without cycles among them, and with every id entered, nothing is left waiting. */
  lemma RankedIsNotHopeless(v: Store, rank: map<string, nat>)
    requires forall i, j {:trigger RankedAbove(v, rank, i, j)} :: RankedAbove(v, rank, i, j)
    requires forall i :: Pending(v, i) ==> Entered(v, i) && i in rank
    ensures forall i :: !Hopeless(v, i)
  {
    forall i
      ensures !Hopeless(v, i)
    {
      forall ids | i in ids
        ensures !Stuck(v, ids)
      {
        if Stuck(v, ids) {
          assert HeldUp(v, ids, i);
          RankedIsNotStuck(v, rank, ids, i);
        }
      }
    }
  }

  /** From a stuck id, dependencies lead to an id that was never entered or back to where they have been. */
  lemma {:induction false} StuckWalk(v: Store, ids: set<string>, walk: seq<string>, left: set<string>)
    returns (w: seq<string>)
    requires Stuck(v, ids) && walk != [] && Linked(v, walk)
    requires forall i :: 0 <= i < |walk| ==> walk[i] in ids
    requires forall i :: i in ids && i !in walk ==> i in left
    ensures walk <= w && Linked(v, w) && forall i :: 0 <= i < |w| ==> Pending(v, w[i])
    ensures Pending(v, w[|w| - 1]) && EndsIll(v, w)
    decreases left
  {
    var last := walk[|walk| - 1];
    assert forall i :: 0 <= i < |walk| ==> HeldUp(v, ids, walk[i]);
    if v.iht[last].ptr == NULL {
      return walk;
    }
    assert HeldUp(v, ids, last);
    var j :| j in ids && DependsOn(v, last, j);
    if j in walk {
      return walk;
    }
    w := StuckWalk(v, ids, walk + [j], left - {j});
  }

  /** The last id of a walk was never entered, or depends on an id of the walk. */
  ghost predicate EndsIll(v: Store, w: seq<string>)
    requires w != [] && Pending(v, w[|w| - 1])
  {
    var last := w[|w| - 1];
    v.iht[last].ptr == NULL || exists j :: j in w && DependsOn(v, last, j)
  }

  ghost predicate Linked(v: Store, walk: seq<string>) {
    forall i :: 0 <= i < |walk| - 1 ==> DependsOn(v, walk[i], walk[i + 1])
  }

  class Resolver {
    var mem: map<Addr, nat>
    var iht: map<string, Entry>
    var error: Status
    ghost var chain: map<string, seq<Addr>>

    ghost function Now(): Store
      reads this
    {
      Store(mem, iht, chain)
    }

    constructor (cells: map<Addr, nat>)
      requires NULL !in cells
      ensures Now() == Store(cells, map[], map[]) && Threaded(Now()) && Layout(Now()) && error == SoapOk
    {
      mem, iht, chain, error := cells, map[], map[], SoapOk;
    }

    /** Registers p in the list or the chain of an id that is known. */
    method Register(href: string, p: Addr, byList: bool)
      requires Threaded(Now()) && href in iht && p in mem && forall id :: !Waits(Now(), id, p)
      modifies this`mem, this`iht, this`chain
      ensures Now() == Registered(old(Now()), href, p, byList)
    {
      if byList {
        iht := iht[href := iht[href].(flist := [p] + iht[href].flist)];
      } else {
        mem := mem[p := iht[href].copy];
        iht := iht[href := iht[href].(copy := p)];
        chain := chain[href := [p] + chain[href]];
      }
    }

    /** soap_id_forward: the place p is to receive a copy of the object of href. byList says that it is
        registered with a copy function or smaller than a pointer. */
    method Forward(href: string, p: Addr, st: int, n: nat, k: nat, byList: bool) returns (r: Addr)
      requires Threaded(Now())
      requires p != NULL ==> p in mem && forall id :: !Waits(Now(), id, p)
      modifies this
      ensures Threaded(Now())
      ensures p == NULL || href == "" ==> r == p && Now() == old(Now()) && error == old(error)
      ensures p != NULL && href != "" && Mismatch(old(iht), href, st, n, k) ==>
                r == NULL && Now() == old(Now()) && error == SoapHref
      ensures p != NULL && href != "" && !Mismatch(old(iht), href, st, n, k) ==>
                r == p && error == old(error) && WaitsToo(Known(old(Now()), href, st, n), Now(), href, p)
    {
      if p == NULL || href == "" {
        return p;
      }
      if href !in iht {
        iht, chain := iht[href := Entry(st, n, 0, NULL, NULL, [])], chain[href := []];
      } else if iht[href].typ != st || (iht[href].level == k && iht[href].size != n) {
        error := SoapHref;
        return NULL;
      }
      ghost var v := Now();
      KnownKeepsThreads(old(Now()), href, st, n);
      Register(href, p, byList || href[0] != '#');
      RegisteredKeepsThreads(v, href, p, byList || href[0] != '#');
      return p;
    }

    /** soap_malloc: n words nobody holds yet, with whatever they contain. */
    method Malloc(n: nat) returns (p: Addr)
      requires NULL !in mem
      modifies this`mem
      ensures p != NULL && Free(old(mem), p, n) && Cells(mem, p, n) && Grown(old(mem), mem)
    {
      ghost var bound := UpperBound(mem.Keys);
      assert Free(mem, bound, n);
      p :| p != NULL && Free(mem, p, n);
      var i := 0;
      while i < n
        invariant i <= n && Free(old(mem), p, n) && Cells(mem, p, i) && Grown(old(mem), mem)
      {
        var junk: nat := *;
        mem := mem[p + i := junk];
        i := i + 1;
      }
    }

    /** soap_id_enter: the object of an id has been read at p0, or is to be allocated. An id that has been entered is not
        entered again, and an id that something waits for has to have the type, and at its level the size, that it was
        forwarded with. */
    method Enter(id: string, p0: Addr, t: int, n: nat, k: nat) returns (r: Addr)
      requires Threaded(Now())
      modifies this
      ensures Threaded(Now()) && if p0 != NULL then mem == old(mem) else Grown(old(mem), mem)
      ensures id == "" ==> r != NULL && (p0 != NULL ==> r == p0) && iht == old(iht) && chain == old(chain) && error == old(error)
      ensures id != "" && EnterFails(old(Now()), id, t, n, k) != SoapOk ==>
                r == NULL && iht == old(iht) && chain == old(chain) && error == EnterFails(old(Now()), id, t, n, k)
      ensures id != "" && EnterFails(old(Now()), id, t, n, k) == SoapOk ==>
                r != NULL && (p0 != NULL ==> r == p0) && error == old(error) && EnteredAt(old(Now()), Now(), id, r, t, n, k)
    {
      var p := p0;
      if p == NULL {
        ghost var v := Now();
        p := Malloc(n);
        GrownKeepsThreads(v, mem);
      }
      if id == "" {
        return p;
      }
      r := EnterEntry(id, p, t, n, k);
    }

    /** The entry of an id, made or filled in */
    method EnterEntry(id: string, p: Addr, t: int, n: nat, k: nat) returns (r: Addr)
      requires Threaded(Now()) && p != NULL
      modifies this`iht, this`chain, this`error
      ensures Threaded(Now())
      ensures
        var e := EnterFails(old(Now()), id, t, n, k);
        if e != SoapOk then r == NULL && Now() == old(Now()) && error == e
        else r == p && error == old(error) && EnteredAt(old(Now()), Now(), id, r, t, n, k)
    {
      ghost var v := Now();
      if id !in iht {
        iht, chain := iht[id := Entry(t, n, k, p, NULL, [])], chain[id := []];
        NewEntry(v, id, iht[id]);
        return p;
      }
      assert Chained(mem, iht[id].copy, chain[id]);
      if (iht[id].typ != t || (iht[id].level == k && iht[id].size != n)) && (iht[id].copy != NULL || iht[id].flist != []) {
        error := SoapHref;
        return NULL;
      }
      if iht[id].ptr != NULL {
        error := SoapMultiId;
        return NULL;
      }
      iht := iht[id := iht[id].(size := n, ptr := p, level := k)];
      SameChains(v, id, iht[id]);
      return p;
    }

    /** soap_has_copies: whether a place that waits lies in the n words from start on. */
    method HasCopies(start: Addr, n: nat) returns (r: bool)
      requires Threaded(Now())
      ensures r <==> exists j, t :: Waits(Now(), j, t) && In(t, start, n)
    {
      var todo := iht.Keys;
      while todo != {}
        invariant todo <= iht.Keys
        invariant forall j, t :: Waits(Now(), j, t) && j !in todo ==> !In(t, start, n)
        decreases todo
      {
        var id :| id in todo;
        todo := todo - {id};
        ghost var c := chain[id];
        assert Chained(mem, iht[id].copy, c);
        ghost var i := 0;
        var p := iht[id].copy;
        while p != NULL
          invariant 0 <= i <= |c| && p == (if i < |c| then c[i] else NULL)
          invariant forall k :: 0 <= k < i ==> !In(c[k], start, n)
          decreases |c| - i
        {
          if In(p, start, n) {
            assert Waits(Now(), id, p);
            return true;
          }
          assert mem[c[i]] == After(c, i);
          p := mem[p];
          i := i + 1;
        }
        var fps := iht[id].flist;
        while fps != []
          invariant forall t :: t in fps ==> t in iht[id].flist
          invariant forall t :: t in iht[id].flist && t !in fps ==> !In(t, start, n)
          decreases |fps|
        {
          if In(fps[0], start, n) {
            assert Waits(Now(), id, fps[0]);
            return true;
          }
          fps := fps[1..];
        }
      }
      return false;
    }

    /** The walk over the chain of an id in soap_resolve: the next place is read before each copy. */
    method CopyChain(id: string)
      requires id in iht && id in chain && chain[id] != [] && Chained(mem, iht[id].copy, chain[id])
      requires NULL !in mem && Room(mem, chain[id], iht[id].ptr, iht[id].size)
      modifies this`mem, this`iht, this`chain
      ensures iht == old(iht)[id := old(iht)[id].(copy := NULL)] && chain == old(chain)[id := []]
      ensures CopiedTo(old(mem), mem, SetOf(old(chain)[id]), old(iht)[id].ptr, old(iht)[id].size)
    {
      ghost var mem0, c := mem, chain[id];
      ghost var ts: set<Addr> := {};
      ghost var j := 0;
      var src, n := iht[id].ptr, iht[id].size;
      var q := iht[id].copy;
      iht := iht[id := iht[id].(copy := NULL)];
      var more := true;
      while more
        invariant iht == old(iht)[id := old(iht)[id].(copy := NULL)] && chain == old(chain)
        invariant Walked(mem0, mem, c, ts, j, src, n) && (more <==> j < |c|) && (more ==> q == c[j])
        decreases |c| - j
      {
        WalkStep(mem0, mem, c, ts, j, src, n);
        var p := mem[q];
        mem := Memcpy(mem, q, src, n);
        ts := ts + {q};
        q := p;
        j := j + 1;
        more := q != NULL;
      }
      chain := chain[id := []];
      assert c[..j] == c;
      assert ts == SetOf(c);
    }

    /** The copy for the first place in the list of an id, and the end of its entry in the list. */
    method CopyFirst(id: string, ghost from: Entry, ghost mem0: map<Addr, nat>, ghost ts: set<Addr>, ghost j: nat)
      requires id in iht && j < |from.flist| && iht[id] == from.(flist := from.flist[j..])
      requires Filled(mem0, mem, from.flist, ts, j, from.ptr, from.size)
      modifies this`mem, this`iht
      ensures iht == old(iht)[id := from.(flist := from.flist[j + 1..])]
      ensures Filled(mem0, mem, from.flist, ts + {from.flist[j]}, j + 1, from.ptr, from.size)
    {
      var fp := iht[id].flist[0];
      FillOne(mem0, mem, from.flist, ts, j, from.ptr, from.size);
      mem := Memcpy(mem, fp, iht[id].ptr, iht[id].size);
      iht := iht[id := iht[id].(flist := iht[id].flist[1..])];
    }

    /** The walk over the list of an id in soap_resolve. */
    method CopyList(id: string)
      requires id in iht && Room(mem, iht[id].flist, iht[id].ptr, iht[id].size)
      modifies this`mem, this`iht
      ensures iht == old(iht)[id := old(iht)[id].(flist := [])]
      ensures CopiedTo(old(mem), mem, SetOf(old(iht)[id].flist), old(iht)[id].ptr, old(iht)[id].size)
    {
      ghost var mem0, from := mem, iht[id];
      ghost var c := from.flist;
      ghost var ts: set<Addr> := {};
      ghost var j := 0;
      while iht[id].flist != []
        invariant j <= |c| && iht.Keys == old(iht).Keys && iht == old(iht)[id := from.(flist := c[j..])]
        invariant Filled(mem0, mem, c, ts, j, from.ptr, from.size)
        decreases |c| - j
      {
        CopyFirst(id, from, mem0, ts, j);
        ts := ts + {c[j]};
        j := j + 1;
      }
      assert c[..|c|] == c;
      assert ts == SetOf(c);
    }

    /** The body of the loop over the table in the second phase of soap_resolve. */
    method CopyOne(id: string) returns (flag: bool)
      requires Threaded(Now()) && Layout(Now()) && id in iht
      modifies this`mem, this`iht, this`chain
      ensures flag <==> Entered(old(Now()), id) && !Blocked(old(Now()), id) && Pending(old(Now()), id)
      ensures flag ==> CopyStep(old(Now()), Now(), id)
      ensures !flag ==> Now() == old(Now())
    {
      flag := false;
      if iht[id].ptr == NULL {
        return;
      }
      var has := HasCopies(iht[id].ptr, iht[id].size);
      HasCopiesIsBlocked(Now(), id);
      if has {
        return;
      }
      ghost var v := Now();
      RoomToCopy(v, id);
      ghost var mid;
      flag, mid := CopyBoth(id);
      if flag {
        CopiedToBoth(v, id, mid, mem);
      }
    }

    /** The copies for an id whose object has no place in it that waits. */
    method CopyBoth(id: string) returns (flag: bool, ghost mid: map<Addr, nat>)
      requires id in iht && id in chain && NULL !in mem && Chained(mem, iht[id].copy, chain[id])
      requires chain[id] != [] ==> iht[id].copy != NULL && Room(mem, chain[id], iht[id].ptr, iht[id].size)
      requires iht[id].flist != [] ==> Room(mem, iht[id].flist, iht[id].ptr, iht[id].size)
      modifies this`mem, this`iht, this`chain
      ensures flag <==> Pending(old(Now()), id)
      ensures chain == old(chain)[id := []] && iht == old(iht)[id := old(iht)[id].(copy := NULL, flist := [])]
      ensures CopiedAlong(old(mem), mid, old(chain)[id], old(iht)[id].ptr, old(iht)[id].size)
      ensures CopiedAlong(mid, mem, old(iht)[id].flist, old(iht)[id].ptr, old(iht)[id].size)
    {
      flag := false;
      if iht[id].copy != NULL {
        CopyChain(id);
        flag := true;
      }
      mid := mem;
      if iht[id].flist != [] {
        CopyList(id);
        flag := true;
      }
    }

    /** One id of a pass over the table. */
    method Visit(ghost v0: Store, ghost done0: set<string>, id: string) returns (flag: bool, ghost done: set<string>)
      requires Going(v0, Now(), done0) && id in iht
      modifies this`mem, this`iht, this`chain
      ensures Going(v0, Now(), done) && iht.Keys == old(iht).Keys
      ensures if flag then done0 < done else done == done0 && Now() == old(Now())
      ensures !flag ==> Held(Now(), id)
    {
      ghost var v := Now();
      flag := CopyOne(id);
      done := done0;
      if flag {
        OneStep(v0, v, Now(), done, id);
        done := done + {id};
      }
    }

    /** One pass over the table. */
    method Pass(ghost v0: Store, ghost done0: set<string>) returns (flag: bool, ghost done: set<string>)
      requires Going(v0, Now(), done0)
      modifies this`mem, this`iht, this`chain
      ensures Going(v0, Now(), done)
      ensures flag ==> done0 < done
      ensures !flag ==> Now() == old(Now()) && done == done0
      ensures !flag ==> AllHeld(Now(), {})
    {
      flag, done := false, done0;
      var todo := iht.Keys;
      while todo != {}
        invariant todo <= iht.Keys && Going(v0, Now(), done)
        invariant if flag then done0 < done else done == done0 && Now() == old(Now())
        invariant !flag ==> AllHeld(Now(), todo)
        decreases todo
      {
        var id :| id in todo;
        ghost var before := todo;
        todo := todo - {id};
        var copied;
        copied, done := Visit(v0, done, id);
        flag := flag || copied;
        if !flag {
          OneHeldMore(Now(), before, id);
        }
      }
    }

    /** The second phase of soap_resolve. What remains pending is what is held up from the start; all
        other places hold the objects they waited for. */
    method ResolveCopies()
      requires Threaded(Now()) && Layout(Now())
      modifies this`mem, this`iht, this`chain
      ensures Threaded(Now()) && Layout(Now())
      ensures forall id :: Pending(Now(), id) <==> Hopeless(old(Now()), id)
      ensures Resolved(old(Now()), Now())
    {
      ghost var v0 := Now();
      ghost var done: set<string> := {};
      StartGoing(v0);
      var flag := true;
      while flag
        invariant Going(v0, Now(), done)
        invariant !flag ==> AllHeld(Now(), {})
        decreases flag, iht.Keys - done
      {
        flag, done := Pass(v0, done);
      }
      LeftoversAreStuck(v0, Now(), done);
      WhatIsDone(v0, Now(), done);
    }
  }

  lemma HasCopiesIsBlocked(v: Store, id: string)
    requires Entered(v, id)
    ensures Blocked(v, id) <==> exists j, t :: Waits(v, j, t) && In(t, v.iht[id].ptr, v.iht[id].size)
  {
    forall j, t | Waits(v, j, t) && In(t, v.iht[id].ptr, v.iht[id].size)
      ensures Blocked(v, id)
    {
      PlaceBlocks(v, id, j, t);
    }
  }

  /** A place of an id that can be copied lies outside the object and outside its other places. */
  lemma PlaceApart(v: Store, id: string, t: Addr)
    requires Layout(v) && Entered(v, id) && !Blocked(v, id) && Waits(v, id, t)
    ensures
      var src, n := v.iht[id].ptr, v.iht[id].size;
      n > 0 && Cells(v.mem, t, n) && Cells(v.mem, src, n) && Apart(t, n, src, n)
    ensures forall s :: Waits(v, id, s) && s != t ==> Apart(s, v.iht[id].size, t, v.iht[id].size)
  {
    if In(t, v.iht[id].ptr, v.iht[id].size) {
      PlaceBlocks(v, id, id, t);
    }
  }

  lemma RoomInChain(v: Store, id: string)
    requires Threaded(v) && Layout(v) && Entered(v, id) && !Blocked(v, id) && v.iht[id].copy != NULL
    ensures v.chain[id] != [] && Room(v.mem, v.chain[id], v.iht[id].ptr, v.iht[id].size)
  {
    var c := v.chain[id];
    assert Chained(v.mem, v.iht[id].copy, c);
    PlaceApart(v, id, c[0]);
    forall i | 0 <= i < |c|
      ensures Cells(v.mem, c[i], v.iht[id].size) && Apart(c[i], v.iht[id].size, v.iht[id].ptr, v.iht[id].size)
    {
      PlaceApart(v, id, c[i]);
    }
    forall i, k | 0 <= i < |c| && 0 <= k < |c| && c[i] != c[k]
      ensures Apart(c[i], v.iht[id].size, c[k], v.iht[id].size)
    {
      assert Waits(v, id, c[i]) && Waits(v, id, c[k]);
    }
  }

  lemma RoomInList(v: Store, id: string, mem: map<Addr, nat>)
    requires Threaded(v) && Layout(v) && Entered(v, id) && !Blocked(v, id) && v.iht[id].flist != []
    requires mem.Keys == v.mem.Keys
    ensures Room(mem, v.iht[id].flist, v.iht[id].ptr, v.iht[id].size)
  {
    var c := v.iht[id].flist;
    PlaceApart(v, id, c[0]);
    forall i | 0 <= i < |c|
      ensures Cells(mem, c[i], v.iht[id].size) && Apart(c[i], v.iht[id].size, v.iht[id].ptr, v.iht[id].size)
    {
      PlaceApart(v, id, c[i]);
    }
    forall i, k | 0 <= i < |c| && 0 <= k < |c| && c[i] != c[k]
      ensures Apart(c[i], v.iht[id].size, c[k], v.iht[id].size)
    {
      assert Waits(v, id, c[i]) && Waits(v, id, c[k]);
    }
  }

  ghost predicate CopiedAlong(mem0: map<Addr, nat>, mem: map<Addr, nat>, c: seq<Addr>, src: Addr, n: nat) {
    if c == [] then mem == mem0 else CopiedTo(mem0, mem, SetOf(c), src, n)
  }

  lemma RoomToCopy(v: Store, id: string)
    requires Threaded(v) && Layout(v) && Entered(v, id) && !Blocked(v, id)
    ensures Chained(v.mem, v.iht[id].copy, v.chain[id])
    ensures v.chain[id] != [] ==> v.iht[id].copy != NULL && Room(v.mem, v.chain[id], v.iht[id].ptr, v.iht[id].size)
    ensures v.iht[id].flist != [] ==> Room(v.mem, v.iht[id].flist, v.iht[id].ptr, v.iht[id].size)
  {
    assert Chained(v.mem, v.iht[id].copy, v.chain[id]);
    if v.iht[id].copy != NULL {
      RoomInChain(v, id);
    }
    if v.iht[id].flist != [] {
      RoomInList(v, id, v.mem);
    }
  }

  /** The copies along the chain and those along the list put together. */
  lemma CopiedToBoth(v: Store, id: string, mid: map<Addr, nat>, mem: map<Addr, nat>)
    requires Threaded(v) && Layout(v) && Entered(v, id) && !Blocked(v, id) && Pending(v, id)
    requires CopiedAlong(v.mem, mid, v.chain[id], v.iht[id].ptr, v.iht[id].size)
    requires CopiedAlong(mid, mem, v.iht[id].flist, v.iht[id].ptr, v.iht[id].size)
    ensures CopiedTo(v.mem, mem, Places(v, id), v.iht[id].ptr, v.iht[id].size)
  {
    var src, n := v.iht[id].ptr, v.iht[id].size;
    var a, b := SetOf(v.chain[id]), SetOf(v.iht[id].flist);
    var t0 := if v.chain[id] != [] then v.chain[id][0] else v.iht[id].flist[0];
    PlaceApart(v, id, t0);
    assert Cells(mem, src, n);
    assert CopiedTo(v.mem, mid, a, src, n);
    assert CopiedTo(mid, mem, b, src, n);
    forall t | t in a + b
      ensures Apart(t, n, src, n) && forall s :: s in a + b && s != t ==> Apart(s, n, t, n)
    {
      PlaceApart(v, id, t);
      assert forall s :: s in a + b ==> Waits(v, id, s);
    }
    CopiedTwice(v.mem, mid, mem, a, b, src, n);
    assert a + b == Places(v, id);
  }

  lemma HoldsAfterCopies(m1: map<Addr, nat>, m2: map<Addr, nat>, b: set<Addr>, t: Addr, src: Addr, n: nat)
    requires Holds(m1, t, src, n) && CopiedTo(m1, m2, b, src, n)
    requires Apart(t, n, src, n) && forall s :: s in b ==> Apart(s, n, src, n) && Apart(s, n, t, n)
    ensures Holds(m2, t, src, n)
  {
    forall x: Addr | In(x, t, n)
      ensures m2[x] == m2[src + (x - t)]
    {
      assert !Hit(b, n, x) && !Hit(b, n, src + (x - t));
    }
  }

  lemma CopiedTwice(
      m0: map<Addr, nat>, m1: map<Addr, nat>, m2: map<Addr, nat>, a: set<Addr>, b: set<Addr>, src: Addr, n: nat)
    requires CopiedTo(m0, m1, a, src, n) && CopiedTo(m1, m2, b, src, n)
    requires forall t :: t in a + b ==> Apart(t, n, src, n)
    requires forall t, s :: t in a + b && s in a + b && s != t ==> Apart(s, n, t, n)
    ensures CopiedTo(m0, m2, a + b, src, n)
  {
    forall t | t in a + b
      ensures Holds(m2, t, src, n)
    {
      if t !in b {
        HoldsAfterCopies(m1, m2, b, t, src, n);
      }
    }
    forall x | x in m2 && !Hit(a + b, n, x)
      ensures m2[x] == m0[x]
    {
      assert forall t :: t in a || t in b ==> t in a + b;
      assert !Hit(a, n, x) && !Hit(b, n, x);
    }
  }

  /** A run of the loop that has got from v0 to v. */
  ghost predicate Going(v0: Store, v: Store, done: set<string>) {
    && Threaded(v) && Layout(v) && Layout(v0) && v0.chain.Keys == v0.iht.Keys
    && done <= v.iht.Keys && Progressed(v0, v, done) && Spares(v0, done)
  }

  lemma StartGoing(v: Store)
    requires Threaded(v) && Layout(v)
    ensures Going(v, v, {})
  {
  }

  lemma OneStep(v0: Store, v: Store, w: Store, done: set<string>, id: string)
    requires Going(v0, v, done) && CopyStep(v, w, id)
    requires Entered(v, id) && Pending(v, id) && !Blocked(v, id)
    ensures id !in done && Going(v0, w, done + {id})
  {
    assert EntryAfter(v0, v, done, id);
    StepKeepsLayout(v, w, id);
    StepKeepsThreads(v, w, id);
    StepProgresses(v0, v, w, done, id);
    StepSpares(v0, v, done, id);
  }

  /** Each place of v0 still waits or holds the object it waited for; nothing else has changed. */
  ghost predicate Resolved(v0: Store, v: Store) {
    && v.iht.Keys == v0.iht.Keys && v.mem.Keys == v0.mem.Keys
    && (forall id :: id in v.iht ==> v.iht[id].(flist := [], copy := NULL) == v0.iht[id].(flist := [], copy := NULL))
    && (forall id, t :: Waits(v0, id, t) && Pending(v, id) ==> Waits(v, id, t))
    && (forall id, t :: Waits(v0, id, t) && !Pending(v, id) ==> Holds(v.mem, t, v.iht[id].ptr, v.iht[id].size))
    && (forall a :: a in v.mem && !IsPlace(v0, a) ==> v.mem[a] == v0.mem[a])
  }

  ghost predicate IsPlace(v: Store, a: Addr) {
    exists id, t :: Waits(v, id, t) && In(a, t, v.iht[id].size)
  }

  lemma WhatIsDone(v0: Store, v: Store, done: set<string>)
    requires Going(v0, v, done)
    ensures forall id :: Hopeless(v0, id) ==> Pending(v, id)
    ensures Resolved(v0, v)
  {
    forall id | Hopeless(v0, id)
      ensures Pending(v, id)
    {
      var ids :| id in ids && Stuck(v0, ids);
      assert HeldUp(v0, ids, id) && EntryAfter(v0, v, done, id);
    }
    forall id, t | Waits(v0, id, t)
      ensures if Pending(v, id) then Waits(v, id, t) else Holds(v.mem, t, v.iht[id].ptr, v.iht[id].size)
    {
      assert EntryAfter(v0, v, done, id);
      if id in done {
        assert Settled(v0, v, id);
      }
    }
    forall id | id in v.iht
      ensures v.iht[id].(flist := [], copy := NULL) == v0.iht[id].(flist := [], copy := NULL)
    {
      assert EntryAfter(v0, v, done, id);
    }
    forall a | a in v.mem && !IsPlace(v0, a)
      ensures v.mem[a] == v0.mem[a]
    {
      assert !Written(v0, done, a);
    }
  }

  /** The type, or at the same level the size, is not the one the id is known with. */
  predicate Mismatch(iht: map<string, Entry>, id: string, t: int, n: nat, k: nat) {
    id in iht && (iht[id].typ != t || (iht[id].level == k && iht[id].size != n))
  }

  /** p waits for id as well; otherwise the same places wait, the same objects are known, and all that
      has been written is p. */
  ghost predicate WaitsToo(v: Store, w: Store, id: string, p: Addr) {
    && w.iht.Keys == v.iht.Keys && w.mem.Keys == v.mem.Keys
    && (forall a :: a in v.mem && a != p ==> w.mem[a] == v.mem[a])
    && (forall i, t :: Waits(w, i, t) <==> Waits(v, i, t) || (i == id && t == p))
    && (forall i :: i in v.iht ==> w.iht[i].(flist := [], copy := NULL) == v.iht[i].(flist := [], copy := NULL))
  }

  /** The store with an entry for the id, which no place waits for if it is new. */
  ghost function Known(v: Store, id: string, st: int, n: nat): Store {
    if id in v.iht then v
    else v.(iht := v.iht[id := Entry(st, n, 0, NULL, NULL, [])], chain := v.chain[id := []])
  }

  ghost function Listed(v: Store, id: string, p: Addr): Store
    requires id in v.iht
  {
    v.(iht := v.iht[id := v.iht[id].(flist := [p] + v.iht[id].flist)])
  }

  ghost function OnChain(v: Store, id: string, p: Addr): Store
    requires id in v.iht && id in v.chain
  {
    Store(v.mem[p := v.iht[id].copy], v.iht[id := v.iht[id].(copy := p)], v.chain[id := [p] + v.chain[id]])
  }

  ghost function Registered(v: Store, id: string, p: Addr, byList: bool): Store
    requires id in v.iht && id in v.chain
  {
    if byList then Listed(v, id, p) else OnChain(v, id, p)
  }

  lemma RegisteredKeepsThreads(v: Store, id: string, p: Addr, byList: bool)
    requires Threaded(v) && id in v.iht && p in v.mem && forall j :: !Waits(v, j, p)
    ensures Threaded(Registered(v, id, p, byList)) && WaitsToo(v, Registered(v, id, p, byList), id, p)
  {
    if byList {
      ListedKeepsThreads(v, id, p);
    } else {
      OnChainKeepsThreads(v, id, p);
    }
  }

  /** What goes wrong when an object is entered: others wait for an object of another kind, or it has been entered. */
  ghost function EnterFails(v: Store, id: string, t: int, n: nat, k: nat): Status {
    if Pending(v, id) && Mismatch(v.iht, id, t, n, k) then SoapHref
    else if Entered(v, id) then SoapMultiId
    else SoapOk
  }

  ghost predicate Grown(m: map<Addr, nat>, m': map<Addr, nat>) {
    NULL !in m' && forall a :: a in m ==> a in m' && m'[a] == m[a]
  }

  /** The object of id is at p, and the same places wait as before. */
  ghost predicate EnteredAt(v: Store, w: Store, id: string, p: Addr, t: int, n: nat, k: nat) {
    && w.iht.Keys == v.iht.Keys + {id} && w.iht[id].ptr == p && w.iht[id].size == n && w.iht[id].level == k
    && w.iht[id].typ == (if id in v.iht then v.iht[id].typ else t)
    && (forall i :: i in v.iht && i != id ==> w.iht[i] == v.iht[i])
    && (forall i, q :: Waits(w, i, q) <==> Waits(v, i, q))
  }

  /** A place of n words for the id can wait: it overlaps no other, and lies inside an object or outside of it. */
  ghost predicate Fits(v: Store, id: string, p: Addr, n: nat) {
    && n > 0 && Cells(v.mem, p, n)
    && (forall j, t :: Waits(v, j, t) ==> (j == id && t == p) || Apart(p, n, t, v.iht[j].size))
    && (forall i :: Entered(v, i) ==> Apart(p, n, v.iht[i].ptr, v.iht[i].size) || Nested(p, n, v.iht[i].ptr, v.iht[i].size))
  }

  /** An entry that is new changes nothing for those that wait. */
  lemma KnownKeepsLayout(v: Store, id: string, st: int, n: nat)
    requires Layout(v)
    ensures Layout(Known(v, id, st, n))
  {
    var u := Known(v, id, st, n);
    assert forall i, t :: Waits(u, i, t) <==> Waits(v, i, t);
    assert forall i :: Entered(u, i) <==> Entered(v, i);
  }

  lemma PlaceKeepsLayout(u: Store, w: Store, id: string, p: Addr)
    requires Layout(u) && WaitsToo(u, w, id, p) && id in u.iht && Fits(u, id, p, u.iht[id].size)
    ensures Layout(w)
  {
    forall i | i in u.iht
      ensures w.iht[i].size == u.iht[i].size && w.iht[i].ptr == u.iht[i].ptr
    {
      assert w.iht[i].(flist := [], copy := NULL) == u.iht[i].(flist := [], copy := NULL);
    }
  }

  /** What soap_id_forward does keeps the layout that soap_resolve needs. */
  lemma ForwardKeepsLayout(v: Store, w: Store, id: string, p: Addr, st: int, n: nat)
    requires Layout(v) && WaitsToo(Known(v, id, st, n), w, id, p)
    requires Fits(Known(v, id, st, n), id, p, Known(v, id, st, n).iht[id].size)
    ensures Layout(w)
  {
    KnownKeepsLayout(v, id, st, n);
    PlaceKeepsLayout(Known(v, id, st, n), w, id, p);
  }

  /** So does soap_id_enter, for an object that has the size that is waited for and cuts through no place. */
  lemma EnterKeepsLayout(v: Store, w: Store, id: string, p: Addr, st: int, n: nat, k: nat)
    requires Layout(v) && EnteredAt(v, w, id, p, st, n, k) && (forall a :: a in v.mem ==> a in w.mem)
    requires Cells(w.mem, p, n) && (Pending(v, id) ==> v.iht[id].size == n)
    requires forall j, t :: Waits(v, j, t) ==> Apart(t, v.iht[j].size, p, n) || Nested(t, v.iht[j].size, p, n)
    ensures Layout(w)
  {
    forall i, s | Waits(w, i, s)
      ensures w.iht[i].size == v.iht[i].size
    {
      assert Waits(v, i, s);
    }
    assert forall i :: Entered(w, i) && i != id ==> Entered(v, i);
  }

  lemma GrownKeepsThreads(v: Store, mem: map<Addr, nat>)
    requires Threaded(v) && Grown(v.mem, mem)
    ensures Threaded(v.(mem := mem))
  {
    forall id | id in v.iht
      ensures Chained(mem, v.iht[id].copy, v.chain[id])
    {
      assert Chained(v.mem, v.iht[id].copy, v.chain[id]);
    }
  }

  lemma NewEntry(v: Store, id: string, e: Entry)
    requires Threaded(v) && id !in v.iht && e.copy == NULL && e.flist == []
    ensures
      var w := v.(iht := v.iht[id := e], chain := v.chain[id := []]);
      Threaded(w) && forall i, q :: Waits(w, i, q) <==> Waits(v, i, q)
  {
  }

  lemma SameChains(v: Store, id: string, e: Entry)
    requires Threaded(v) && id in v.iht && e.copy == v.iht[id].copy && e.flist == v.iht[id].flist
    ensures
      var w := v.(iht := v.iht[id := e]);
      Threaded(w) && forall i, q :: Waits(w, i, q) <==> Waits(v, i, q)
  {
    forall i | i in v.iht
      ensures Chained(v.mem, v.iht[id := e][i].copy, v.chain[i])
    {
      assert Chained(v.mem, v.iht[i].copy, v.chain[i]);
    }
  }

  lemma KnownKeepsThreads(v: Store, id: string, st: int, n: nat)
    requires Threaded(v)
    ensures Threaded(Known(v, id, st, n))
    ensures forall i, t :: Waits(Known(v, id, st, n), i, t) <==> Waits(v, i, t)
  {
  }

  lemma ListedKeepsThreads(v: Store, id: string, p: Addr)
    requires Threaded(v) && id in v.iht
    ensures Threaded(Listed(v, id, p)) && WaitsToo(v, Listed(v, id, p), id, p)
  {
    assert forall t :: t in [p] + v.iht[id].flist <==> t == p || t in v.iht[id].flist;
  }

  lemma OnChainWaitsToo(v: Store, id: string, p: Addr)
    requires Threaded(v) && id in v.iht && p in v.mem
    ensures WaitsToo(v, OnChain(v, id, p), id, p)
  {
    assert forall t :: t in [p] + v.chain[id] <==> t == p || t in v.chain[id];
  }

  lemma OnChainKeepsThreads(v: Store, id: string, p: Addr)
    requires Threaded(v) && id in v.iht && p in v.mem && forall j :: !Waits(v, j, p)
    ensures Threaded(OnChain(v, id, p)) && WaitsToo(v, OnChain(v, id, p), id, p)
  {
    var w := OnChain(v, id, p);
    OnChainWaitsToo(v, id, p);
    forall j | j in w.iht
      ensures Chained(w.mem, w.iht[j].copy, w.chain[j])
    {
      assert Chained(v.mem, v.iht[j].copy, v.chain[j]) && !Waits(v, j, p);
      if j == id {
        PushedOn(v.mem, v.iht[j].copy, v.chain[j], p);
      }
    }
  }

  lemma PushedOn(mem: map<Addr, nat>, head: Addr, c: seq<Addr>, p: Addr)
    requires Chained(mem, head, c) && p in mem && p !in c
    ensures Chained(mem[p := head], p, [p] + c)
  {
    forall i | 0 <= i < |[p] + c|
      ensures ([p] + c)[i] in mem && mem[p := head][([p] + c)[i]] == After([p] + c, i)
    {
      if i > 0 {
        assert mem[c[i - 1]] == After(c, i - 1);
      }
    }
  }

  /** The places c have room for n words each, away from the n words at src and from one another. */
  ghost predicate Room(mem: map<Addr, nat>, c: seq<Addr>, src: Addr, n: nat) {
    && Cells(mem, src, n) && n > 0
    && (forall i :: 0 <= i < |c| ==> Cells(mem, c[i], n) && Apart(c[i], n, src, n))
    && (forall i, k :: 0 <= i < |c| && 0 <= k < |c| && c[i] != c[k] ==> Apart(c[i], n, c[k], n))
  }

  /** The first j of the places c have been filled. */
  ghost predicate Filled(
      mem0: map<Addr, nat>, mem: map<Addr, nat>, c: seq<Addr>, ts: set<Addr>, j: nat, src: Addr, n: nat) {
    && j <= |c| && Room(mem0, c, src, n) && (forall t :: t in ts <==> t in c[..j])
    && CopiedTo(mem0, mem, ts, src, n)
  }

  lemma FillOne(
      mem0: map<Addr, nat>, mem: map<Addr, nat>, c: seq<Addr>, ts: set<Addr>, j: nat, src: Addr, n: nat)
    requires Filled(mem0, mem, c, ts, j, src, n) && j < |c|
    ensures Cells(mem, c[j], n) && Cells(mem, src, n) && Apart(c[j], n, src, n)
    ensures Filled(mem0, Memcpy(mem, c[j], src, n), c, ts + {c[j]}, j + 1, src, n)
  {
    forall s | s in ts && s != c[j]
      ensures Apart(s, n, c[j], n)
    {
      var i :| 0 <= i < j && c[i] == s;
    }
    CopyOneMore(mem0, mem, ts, c[j], src, n);
    assert c[..j + 1] == c[..j] + [c[j]];
  }

  /** The same, for places that are chained; the part of the chain that has not been walked is as it was. */
  ghost predicate Walked(
      mem0: map<Addr, nat>, mem: map<Addr, nat>, c: seq<Addr>, ts: set<Addr>, j: nat, src: Addr, n: nat) {
    c != [] && Chained(mem0, c[0], c) && NULL !in c && Filled(mem0, mem, c, ts, j, src, n)
  }

  lemma ChainAhead(
      mem0: map<Addr, nat>, mem: map<Addr, nat>, c: seq<Addr>, ts: set<Addr>, j: nat, src: Addr, n: nat)
    requires Walked(mem0, mem, c, ts, j, src, n) && j < |c|
    ensures c[j] in mem && mem[c[j]] == After(c, j) && (mem[c[j]] == NULL <==> j + 1 == |c|)
  {
    assert mem0[c[j]] == After(c, j);
    forall t | t in ts
      ensures !In(c[j], t, n)
    {
      var i :| 0 <= i < j && c[i] == t;
      assert c[i] != c[j] && Apart(c[i], n, c[j], n);
    }
    assert !Hit(ts, n, c[j]);
  }

  lemma WalkStep(
      mem0: map<Addr, nat>, mem: map<Addr, nat>, c: seq<Addr>, ts: set<Addr>, j: nat, src: Addr, n: nat)
    requires Walked(mem0, mem, c, ts, j, src, n) && j < |c|
    ensures c[j] in mem && mem[c[j]] == After(c, j) && (mem[c[j]] == NULL <==> j + 1 == |c|)
    ensures Cells(mem, c[j], n) && Cells(mem, src, n) && Apart(c[j], n, src, n)
    ensures Walked(mem0, Memcpy(mem, c[j], src, n), c, ts + {c[j]}, j + 1, src, n)
  {
    ChainAhead(mem0, mem, c, ts, j, src, n);
    FillOne(mem0, mem, c, ts, j, src, n);
  }
}
