/** References of a SOAP message resolved through the very cells that hold them: soap_id_lookup,
    soap_id_enter and the link phase of soap_resolve in nPVR/stdsoap2.cpp. Cells waiting for an id
    that has not been read yet are chained through their own contents, and a reference registered
    k levels away from its object gets k intermediate cells. */
module IdLinks {
  import opened Chains

  /** struct soap_ilist, without the fields of forwarded copies. */
  datatype Ilist = Ilist(typ: int, size: nat, link: Addr, ptr: Addr, level: nat)

  /** What a cell on the way to an object is for: its id, and the dereferences left to the object. */
  datatype Track = Track(id: string, dist: nat)

  /** A cell handed to soap_id_lookup: its id and level, and whether the id had not been entered yet. */
  datatype Reg = Reg(id: string, level: nat, early: bool)

  /** n dereferences lead from a to obj. */
  predicate Reaches(mem: map<Addr, Addr>, a: Addr, n: nat, obj: Addr)
    decreases n
  {
    if n == 0 then a == obj else a in mem && Reaches(mem, mem[a], n - 1, obj)
  }

  /** The table, the memory, and what is owed to each cell. */
  datatype View = View(
    mem: map<Addr, Addr>,
    iht: map<string, Ilist>,
    chain: map<string, seq<Addr>>,
    track: map<Addr, Track>,
    regs: map<Addr, Reg>,
    low: map<string, nat>)
  {
    ghost predicate ChainOk(id: string)
      requires id in iht && id in chain
    {
      && Chained(mem, iht[id].link, chain[id])
      && (forall c :: c in chain[id] ==> c in track && track[c] == Track(id, 1))
    }

    ghost predicate TrackOk(a: Addr)
      requires a in track && chain.Keys == iht.Keys
    {
      var t := track[a];
      && a in mem && t.id in iht && t.dist >= 1
      && (t.dist > 1 ==> mem[a] in track && track[mem[a]] == Track(t.id, t.dist - 1))
      && (t.dist == 1 ==> a in chain[t.id] || (iht[t.id].ptr != NULL && mem[a] == iht[t.id].ptr))
    }

    ghost predicate RegOk(p: Addr)
      requires p in regs && low.Keys == iht.Keys
    {
      var g := regs[p];
      && g.id in iht && p in track && track[p].id == g.id
      && (g.early ==> g.level >= low[g.id] && track[p].dist == g.level - low[g.id] + 1)
      && (!g.early ==> iht[g.id].ptr != NULL)
      && (!g.early ==> track[p].dist == (if g.level > iht[g.id].level then g.level - iht[g.id].level else 0) + 1)
    }

    ghost predicate LowOk(id: string)
      requires id in iht && id in low
    {
      iht[id].ptr == NULL ==> low[id] == iht[id].level
    }

    ghost predicate EarlyFor(p: Addr, id: string) {
      p in regs && regs[p].id == id && regs[p].early
    }

    ghost predicate LowestFor(p: Addr, id: string)
      requires id in low
    {
      p in regs && regs[p] == Reg(id, low[id], true)
    }

    /** low[id] is the lowest level at which the id was referred to before it was entered. */
    ghost predicate LowAttained(id: string)
      requires id in low && id in iht
    {
      (iht[id].ptr == NULL || exists p :: EarlyFor(p, id)) ==> exists p :: LowestFor(p, id)
    }

    ghost predicate Tight()
      requires Shape()
    {
      forall id {:trigger LowAttained(id)} :: id in iht ==> LowAttained(id)
    }

    /** The level a cell is measured from: the lowest one referred to by then, or the object's own. */
    ghost function BaseOf(p: Addr): nat
      requires p in regs && regs[p].id in iht && regs[p].id in low
    {
      if regs[p].early then low[regs[p].id] else iht[regs[p].id].level
    }

    ghost function Owed(p: Addr): nat
      requires p in regs && regs[p].id in iht && regs[p].id in low
    {
      (if regs[p].level > BaseOf(p) then regs[p].level - BaseOf(p) else 0) + 1
    }

    /** r is the last cell on the way from p, the one that the address of the object goes to. */
    ghost predicate LastCell(p: Addr, r: Addr, id: string) {
      && p in track && track[p].dist >= 1 && r in track && track[r] == Track(id, 1)
      && Reaches(mem, p, track[p].dist - 1, r)
    }

    /** A registered cell whose id has been entered reaches the object, in one dereference and one
        more for each level it is above its base. */
    ghost predicate Connected(p: Addr)
      requires p in regs
    {
      var g := regs[p];
      && g.id in iht && g.id in low
      && (iht[g.id].ptr != NULL ==>
            Reaches(mem, p, Owed(p), iht[g.id].ptr))
    }

    ghost predicate Shape() {
      NULL !in mem && chain.Keys == iht.Keys && low.Keys == iht.Keys
    }

    /** Tight, save that the lowest level of an id may still have to be registered at level k. */
    ghost predicate TightBut(id: string, k: nat)
      requires Shape() && id in iht
    {
      && (forall i {:trigger LowAttained(i)} :: i in iht && i != id ==> LowAttained(i))
      && (LowAttained(id) || iht[id].level == k)
    }

    ghost predicate ChainsOk()
      requires Shape()
    {
      forall id {:trigger ChainOk(id)} :: id in iht ==> ChainOk(id)
    }

    ghost predicate TracksOk()
      requires Shape()
    {
      forall a {:trigger TrackOk(a)} :: a in track ==> TrackOk(a)
    }

    ghost predicate RegsOk()
      requires Shape()
    {
      forall p {:trigger RegOk(p)} :: p in regs ==> RegOk(p)
    }

    ghost predicate LowsOk()
      requires Shape()
    {
      forall id {:trigger LowOk(id)} :: id in iht ==> LowOk(id)
    }

    ghost predicate Valid() {
      Shape() && ChainsOk() && TracksOk() && RegsOk() && LowsOk()
    }
  }

  class Soap {
    var mem: map<Addr, Addr>
    var iht: map<string, Ilist>
    var error: Status
    ghost var chain: map<string, seq<Addr>>
    ghost var track: map<Addr, Track>
    ghost var regs: map<Addr, Reg>
    ghost var low: map<string, nat>

    ghost function Now(): View
      reads this
    {
      View(mem, iht, chain, track, regs, low)
    }

    constructor (cells: map<Addr, Addr>)
      requires NULL !in cells
      ensures Now() == View(cells, map[], map[], map[], map[], map[]) && error == SoapOk
      ensures Now().Valid() && Now().Tight()
    {
      mem, iht, error := cells, map[], SoapOk;
      chain, track, regs, low := map[], map[], map[], map[];
    }

    /** soap_malloc: a cell nobody holds yet, with whatever it contains. */
    method Malloc() returns (q: Addr)
      requires NULL !in mem
      modifies this`mem
      ensures q !in old(mem) && q != NULL && q in mem
      ensures mem == old(mem)[q := mem[q]]
    {
      ghost var bound := UpperBound(mem.Keys);
      q :| q !in mem && q != NULL;
      var junk: Addr := *;
      mem := mem[q := junk];
    }

    /** One pass over a chain: each cell gets a fresh cell to point to, and the fresh cells are
        chained in the same order. */
    method PushDown(link: Addr, ghost c: seq<Addr>) returns (head: Addr, ghost news: seq<Addr>)
      requires NULL !in mem && Chained(mem, link, c)
      modifies this`mem
      ensures PushedDown(old(mem), mem, c, head, news)
    {
      ghost var mem0 := mem;
      news := [];
      head := NULL;
      var r, q := NULL, link;
      while q != NULL
        invariant NewCells(mem0, mem, head, news, r) && OldCells(mem0, mem, c, news)
        invariant q == (if |news| < |c| then c[|news|] else NULL)
        decreases |c| - |news|
      {
        ghost var mem1 := mem;
        var cell := Malloc();
        PassOneNew(mem0, mem1, head, news, r, q, cell, mem[cell]);
        PassOneOld(mem0, mem1, c, news, r, cell, mem[cell]);
        if r == NULL { head := cell; } else { mem := mem[r := cell]; }
        var s := mem[q];
        mem := mem[q := cell];
        r := cell;
        q := s;
        news := news + [cell];
      }
      PassDone(mem0, mem, c, head, news, r);
      if r == NULL { head := NULL; } else { mem := mem[r := NULL]; }
    }

    /** A chain of n fresh cells from p; the last cell is still to be written. */
    method Descend(p: Addr, n: nat) returns (last: Addr, ghost path: seq<Addr>)
      requires NULL !in mem && p in mem
      modifies this`mem
      ensures Descended(old(mem), mem, p, path) && |path| == n + 1 && last == path[n]
    {
      last, path := p, [p];
      ghost var mem0 := mem;
      var k := n;
      while k > 0
        invariant 0 <= k <= n && |path| == n - k + 1 && last == path[|path| - 1]
        invariant Descended(mem0, mem, p, path)
      {
        var q := Malloc();
        mem := mem[last := q];
        last, path := q, path + [q];
        k := k - 1;
      }
    }

    /** Lowers the level of an id that is still awaited by one. */
    method LowerOne(id: string, n: nat)
      requires Now().Valid() && Awaited(iht, id) && iht[id].level > 0
      modifies this
      ensures Now().Valid() && LoweredFrom(old(Now()), Now(), id) && iht[id].level == old(iht[id].level) - 1
      ensures error == old(error)
    {
      ghost var v := Now();
      var e := iht[id];
      assert v.ChainOk(id);
      var head;
      ghost var news;
      head, news := PushDown(e.link, chain[id]);
      iht := iht[id := e.(link := head, size := n, level := e.level - 1)];
      chain, low, track := chain[id := news], low[id := e.level - 1], LoweredTrack(track, id, news);
      assert Now() == Lowered(v, id, n, mem, head, news);
      LowerKeepsValid(v, id, n, mem, head, news);
      LowerGrows(v, id, n, mem, head, news);
    }

    /** Lowers the level of an id that is still awaited to k, one level at a time. */
    method LowerTo(id: string, n: nat, k: nat)
      requires Now().Valid() && Awaited(iht, id) && iht[id].level >= k
      modifies this
      ensures Now().Valid() && LoweredFrom(old(Now()), Now(), id) && iht[id].level == k
      ensures error == old(error)
    {
      while iht[id].level > k
        invariant Now().Valid() && Awaited(iht, id) && iht[id].level >= k
        invariant LoweredFrom(old(Now()), Now(), id)
        invariant error == old(error)
        decreases iht[id].level
      {
        LowerOne(id, n);
      }
    }

    /** The first href to an id. */
    method LookupFirst(id: string, p: Addr, t: int, n: nat, k: nat)
      requires Now().Valid() && Now().Tight() && id !in iht && p in mem && p !in track
      modifies this
      ensures Now().Valid() && Now().Tight() && Now() == FirstHref(old(Now()), id, p, t, n, k)
      ensures Now().LastCell(p, p, id) && Grows(old(Now()), Now(), p)
      ensures error == old(error)
    {
      FirstHrefKeepsValid(Now(), id, p, t, n, k);
      mem := mem[p := NULL];
      iht := iht[id := Ilist(t, n, p, NULL, k)];
      chain, low, track, regs := chain[id := [p]], low[id := k], track[p := Track(id, 1)], regs[p := Reg(id, k, true)];
    }

    /** An href to an id that has been entered. */
    method LookupResolved(id: string, p: Addr, k: nat) returns (r: Addr)
      requires Now().Valid() && Now().Tight() && id in iht && iht[id].ptr != NULL && p in mem && p !in track
      modifies this
      ensures Now().Valid() && Now().Tight() && Now().LastCell(p, r, id) && Grows(old(Now()), Now(), p)
      ensures iht == old(iht) && regs == old(regs)[p := Reg(id, k, false)] && error == old(error)
    {
      ghost var v := Now();
      ghost var path;
      r, path := Descend(p, if iht[id].level < k then k - iht[id].level else 0);
      ResolvedHrefKeepsValid(v, id, mem, path, k);
      ghost var w := ResolvedHref(v, id, mem, path, k);
      PathEnds(v, id, mem, path, iht[id].ptr);
      mem := mem[r := iht[id].ptr];
      track, regs := w.track, w.regs;
      assert mem == w.mem;
    }

    /** The writes for an href to an id that is awaited at its own level or closer to the object. */
    method ChainForward(id: string, p: Addr, k: nat)
      returns (r: Addr, ghost cells: map<Addr, Addr>, ghost path: seq<Addr>)
      requires NULL !in mem && p in mem && Awaited(iht, id) && id in chain && iht[id].level <= k
      modifies this
      ensures Descended(old(mem), cells, p, path) && |path| == k - old(iht)[id].level + 1 && r == path[|path| - 1]
      ensures Now() == ForwardHref(old(Now()), id, cells, path, k) && error == old(error)
    {
      r, path := Descend(p, k - iht[id].level);
      cells := mem;
      assert r in path;
      mem := mem[r := iht[id].link];
      iht := iht[id := iht[id].(link := r)];
      chain, track, regs := chain[id := [r] + chain[id]], Tracked(track, id, path), regs[p := Reg(id, k, true)];
    }

    /** An href to an id that is awaited at its own level or closer to the object. */
    method LookupForward(id: string, p: Addr, k: nat) returns (r: Addr)
      requires Now().Valid() && Awaited(iht, id) && iht[id].level <= k && p in mem && p !in track
      requires Now().TightBut(id, k)
      modifies this
      ensures Now().Valid() && Now().Tight() && Now().LastCell(p, r, id) && Grows(old(Now()), Now(), p)
      ensures SameEntered(old(iht), iht) && iht.Keys == old(iht).Keys
      ensures regs == old(regs)[p := Reg(id, k, true)] && error == old(error)
    {
      ghost var v := Now();
      ghost var cells, path;
      r, cells, path := ChainForward(id, p, k);
      ForwardHrefKeepsValid(v, id, cells, path, k);
      PathEnds(v, id, cells, path, v.iht[id].link);
    }

    /** An href to an id that is awaited, at any level. */
    method LookupAwaited(id: string, p: Addr, n: nat, k: nat) returns (r: Addr)
      requires Now().Valid() && Now().Tight() && Awaited(iht, id) && p in mem && p !in track
      modifies this
      ensures Now().Valid() && Now().Tight() && Now().LastCell(p, r, id) && Grows(old(Now()), Now(), p) && error == old(error)
      ensures SameEntered(old(iht), iht) && iht.Keys == old(iht).Keys && regs == old(regs)[p := Reg(id, k, true)]
    {
      ghost var v := Now();
      if iht[id].level > k {
        LowerTo(id, n, k);
        LoweringKeepsLowest(v, Now(), id, k);
        ghost var w := Now();
        r := LookupForward(id, p, k);
        SameEnteredTwice(v.iht, w.iht, iht);
        GrowsTwice(v, w, Now(), p);
      } else {
        assert v.LowAttained(id);
        r := LookupForward(id, p, k);
      }
    }

    /** soap_id_lookup: makes the cell p hold what an href at level k refers to, now or later. It returns the cell that
        the address of the object goes to, which is p itself unless the level asks for cells in between. */
    method Lookup(id: string, p: Addr, t: int, n: nat, k: nat) returns (r: Addr)
      requires Now().Valid() && Now().Tight()
      requires p != NULL ==> p in mem && p !in track
      modifies this
      ensures Now().Valid() && Now().Tight()
      ensures p == NULL || id == "" ==> r == p && Now() == old(Now()) && error == old(error)
      ensures p != NULL && id != "" && Clashes(old(iht), id, t) ==>
                r == NULL && Now() == old(Now()) && error == SoapHref
      ensures p != NULL && id != "" && !Clashes(old(iht), id, t) ==>
                && Now().LastCell(p, r, id) && Grows(old(Now()), Now(), p) && error == old(error)
                && SameEntered(old(iht), iht) && iht.Keys == old(iht).Keys + {id}
                && (id !in old(iht) ==> iht[id].typ == t)
                && regs == old(regs)[p := Reg(id, k, id !in old(iht) || old(iht)[id].ptr == NULL)]
    {
      if p == NULL || id == "" {
        return p;
      }
      if id !in iht {
        LookupFirst(id, p, t, n, k);
        return p;
      }
      if iht[id].ptr != NULL {
        if iht[id].typ != t {
          error := SoapHref;
          return NULL;
        }
        r := LookupResolved(id, p, k);
        return;
      }
      r := LookupAwaited(id, p, n, k);
    }

    /** soap_id_enter: the object of an id has been read at p, or is allocated; the level is its own. */
    method Enter(id: string, p0: Addr, t: int, n: nat, k: nat) returns (r: Addr)
      requires Now().Valid() && Now().Tight()
      modifies this
      ensures Now().Valid() && Now().Tight() && Grows(old(Now()), Now(), NULL) && track == old(track)
      ensures regs == old(regs) && if p0 != NULL then mem == old(mem) else old(mem).Keys < mem.Keys
      ensures id == "" ==> r != NULL && (p0 != NULL ==> r == p0) && iht == old(iht) && error == old(error)
      ensures id != "" && id in old(iht) && old(iht)[id].ptr != NULL ==>
                r == NULL && iht == old(iht) && error == SoapMultiId
      ensures id != "" && (id in old(iht) ==> old(iht)[id].ptr == NULL) ==>
                && r != NULL && (p0 != NULL ==> r == p0) && error == old(error)
                && iht.Keys == old(iht).Keys + {id} && iht[id].ptr == r && iht[id].level == k
                && iht[id].typ == (if id in old(iht) then old(iht)[id].typ else t)
                && (forall i :: i in old(iht) && i != id ==> iht[i] == old(iht)[i])
                && (id in old(iht) ==> low[id] == old(low)[id] == old(iht)[id].level)
    {
      var p := p0;
      if p == NULL {
        ghost var v := Now();
        p := Malloc();
        AllocationKeepsValid(v, p, mem[p]);
      }
      if id == "" {
        return p;
      }
      ghost var v := Now();
      if id !in iht {
        iht := iht[id := Ilist(t, n, NULL, p, k)];
        chain, low := chain[id := []], low[id := k];
        EnterNewKeepsValid(v, id, p, t, n, k);
      } else if iht[id].ptr != NULL {
        error := SoapMultiId;
        return NULL;
      } else {
        assert v.LowOk(id);
        iht := iht[id := iht[id].(size := n, ptr := p, level := k)];
        EnterAwaitedKeepsValid(v, id, p, n, k);
      }
      r := p;
    }

    /** The walk over one chain in soap_resolve: every cell of it gets the address of the object. */
    method FillChain(link: Addr, r: Addr, ghost c: seq<Addr>)
      requires NULL !in mem && Chained(mem, link, c)
      modifies this`mem
      ensures Filled(old(mem), mem, c, r)
    {
      ghost var mem0 := mem;
      ghost var j := 0;
      var q := link;
      while q != NULL
        invariant PartFilled(mem0, mem, c, r, j) && q == (if j < |c| then c[j] else NULL)
        decreases |c| - j
      {
        FillStep(mem0, mem, c, r, j);
        var p := mem[q];
        mem := mem[q := r];
        q := p;
        j := j + 1;
      }
    }

    /** The link phase for one id that has been entered. */
    method ResolveOne(id: string)
      requires Now().Valid() && Now().Tight() && Entered(iht, id)
      modifies this
      ensures Now().Valid() && Now().Tight() && regs == old(regs) && low == old(low) && error == old(error)
      ensures iht == old(iht)[id := old(iht)[id].(link := NULL)] && chain == old(chain)[id := []]
      ensures Grows(old(Now()), Now(), NULL)
    {
      ghost var v := Now();
      assert v.ChainOk(id);
      var link := iht[id].link;
      iht := iht[id := iht[id].(link := NULL)];
      FillChain(link, iht[id].ptr, chain[id]);
      chain := chain[id := []];
      FillKeepsValid(v, id, mem);
      assert Now() == FilledView(v, id, mem);
    }

    /** The link phase over the ids in whatever order the hash table has them; it stops at the first
        local id whose object never came. */
    method LinkAll() returns (ok: bool)
      requires Now().Valid() && Now().Tight()
      modifies this
      ensures Now().Valid() && Now().Tight() && regs == old(regs) && low == old(low) && error == old(error)
      ensures SameObjects(old(iht), iht) && Grows(old(Now()), Now(), NULL)
      ensures ok ==> forall id :: id in iht ==> Linked(iht, chain, id)
      ensures !ok ==> SomeMissing(old(iht))
    {
      ghost var iht0 := iht;
      var todo := iht.Keys;
      ok := true;
      while todo != {} && ok
        invariant Now().Valid() && Now().Tight() && regs == old(regs) && low == old(low) && error == old(error)
        invariant SameObjects(iht0, iht) && todo <= iht.Keys && Grows(old(Now()), Now(), NULL)
        invariant ok ==> forall id :: id in iht && id !in todo ==> Linked(iht, chain, id)
        invariant !ok ==> SomeMissing(iht0)
        decreases todo
      {
        var id :| id in todo;
        todo := todo - {id};
        if iht[id].ptr != NULL {
          ghost var v := Now();
          ResolveOne(id);
          GrowsTwice(old(Now()), v, Now(), NULL);
        } else if id != "" && id[0] == '#' {
          assert Missing(iht0, id);
          ok := false;
        }
      }
    }

    /** The link phase of soap_resolve. */
    method ResolveLinks() returns (status: Status)
      requires Now().Valid() && Now().Tight()
      modifies this
      ensures Now().Valid() && Now().Tight() && regs == old(regs) && low == old(low)
      ensures SameObjects(old(iht), iht) && Grows(old(Now()), Now(), NULL)
      ensures status == (if SomeMissing(old(iht)) then SoapMissingId else SoapOk)
      ensures error == (if status == SoapOk then old(error) else SoapMissingId)
      ensures status == SoapOk ==> forall p :: p in regs ==> Now().Connected(p)
    {
      ghost var iht0 := iht;
      var ok := LinkAll();
      if !ok {
        error := SoapMissingId;
        return SoapMissingId;
      }
      NoneMissing(iht0, Now());
      EveryRegReaches(Now());
      return SoapOk;
    }
  }

  /** An id that has been dealt with: it is not missing, and no cell waits in its chain. */
  ghost predicate Linked(iht: map<string, Ilist>, chain: map<string, seq<Addr>>, id: string)
    requires id in iht
  {
    !Missing(iht, id) && (iht[id].ptr != NULL ==> id in chain && chain[id] == [])
  }

  lemma NoneMissing(iht0: map<string, Ilist>, v: View)
    requires SameObjects(iht0, v.iht) && forall id :: id in v.iht ==> Linked(v.iht, v.chain, id)
    ensures !SomeMissing(iht0)
    ensures forall id :: Entered(v.iht, id) ==> id in v.chain && v.chain[id] == []
  {
    forall id
      ensures !Missing(iht0, id)
    {
      if id in v.iht {
        assert Linked(v.iht, v.chain, id);
      }
    }
    forall id | Entered(v.iht, id)
      ensures id in v.chain && v.chain[id] == []
    {
      assert Linked(v.iht, v.chain, id);
    }
  }

  predicate Entered(iht: map<string, Ilist>, id: string) {
    id in iht && iht[id].ptr != NULL
  }

  /** The same ids with the same objects at the same levels. */
  ghost predicate SameObjects(iht0: map<string, Ilist>, iht: map<string, Ilist>) {
    && iht0.Keys == iht.Keys
    && (forall i :: i in iht ==> iht[i].ptr == iht0[i].ptr && iht[i].level == iht0[i].level && iht[i].typ == iht0[i].typ)
  }

  /** A local reference whose object never came. */
  predicate Missing(iht: map<string, Ilist>, id: string) {
    id in iht && iht[id].ptr == NULL && id != "" && id[0] == '#'
  }

  ghost predicate SomeMissing(iht: map<string, Ilist>) {
    exists id :: Missing(iht, id)
  }

  ghost predicate Filled(mem0: map<Addr, Addr>, mem: map<Addr, Addr>, c: seq<Addr>, r: Addr) {
    && mem.Keys == mem0.Keys
    && (forall a :: a in mem && a !in c ==> mem[a] == mem0[a])
    && (forall i :: 0 <= i < |c| ==> c[i] in mem && mem[c[i]] == r)
  }

  /** The first j cells of the chain c are filled, the others hold what they held before. */
  ghost predicate PartFilled(mem0: map<Addr, Addr>, mem: map<Addr, Addr>, c: seq<Addr>, r: Addr, j: nat) {
    && j <= |c| && mem.Keys == mem0.Keys
    && (forall a :: a in mem && a !in c ==> mem[a] == mem0[a])
    && (forall i :: 0 <= i < |c| ==> c[i] in mem)
    && (forall i :: 0 <= i < j ==> mem[c[i]] == r)
    && (forall i {:trigger After(c, i)} :: j <= i < |c| ==> mem[c[i]] == After(c, i))
    && (forall i, k :: 0 <= i < k < |c| ==> c[i] != c[k])
  }

  lemma FillStep(mem0: map<Addr, Addr>, mem: map<Addr, Addr>, c: seq<Addr>, r: Addr, j: nat)
    requires PartFilled(mem0, mem, c, r, j) && j < |c|
    ensures mem[c[j]] == After(c, j) && PartFilled(mem0, mem[c[j] := r], c, r, j + 1)
  {
    var m := mem[c[j] := r];
    assert mem[c[j]] == After(c, j);
    forall a | a in m && a !in c
      ensures m[a] == mem0[a]
    {
      assert a != c[j];
    }
    forall i | 0 <= i < j + 1
      ensures m[c[i]] == r
    {
      assert i < j ==> mem[c[i]] == r;
    }
    forall i | j + 1 <= i < |c|
      ensures m[c[i]] == After(c, i)
    {
      assert c[j] != c[i] && mem[c[i]] == After(c, i);
    }
  }

  ghost function FilledView(v: View, id: string, mem: map<Addr, Addr>): View
    requires id in v.iht
  {
    v.(mem := mem, iht := v.iht[id := v.iht[id].(link := NULL)], chain := v.chain[id := []])
  }

  lemma FillKeepsChains(v: View, id: string, mem: map<Addr, Addr>)
    requires v.Valid() && Entered(v.iht, id) && Filled(v.mem, mem, v.chain[id], v.iht[id].ptr)
    ensures FilledView(v, id, mem).Shape() && FilledView(v, id, mem).ChainsOk()
  {
    var w := FilledView(v, id, mem);
    assert v.ChainOk(id);
    forall i | i in w.iht
      ensures w.ChainOk(i)
    {
      assert v.ChainOk(i);
      if i != id {
        assert forall c :: c in v.chain[i] ==> c !in v.chain[id];
      }
    }
  }

  lemma FillKeepsTracks(v: View, id: string, mem: map<Addr, Addr>)
    requires v.Valid() && Entered(v.iht, id) && Filled(v.mem, mem, v.chain[id], v.iht[id].ptr)
    ensures FilledView(v, id, mem).Shape() && FilledView(v, id, mem).TracksOk()
  {
    var w := FilledView(v, id, mem);
    assert v.ChainOk(id);
    forall a | a in w.track
      ensures w.TrackOk(a)
    {
      assert v.TrackOk(a);
    }
  }

  lemma FillKeepsValid(v: View, id: string, mem: map<Addr, Addr>)
    requires v.Valid() && v.Tight() && Entered(v.iht, id) && Filled(v.mem, mem, v.chain[id], v.iht[id].ptr)
    ensures FilledView(v, id, mem).Valid() && FilledView(v, id, mem).Tight()
  {
    var w := FilledView(v, id, mem);
    FillKeepsChains(v, id, mem);
    FillKeepsTracks(v, id, mem);
    forall i | i in w.iht
      ensures w.LowOk(i) && w.LowAttained(i)
    {
      assert v.LowOk(i) && v.LowAttained(i);
      SameLowest(v, w, i);
    }
    forall q | q in w.regs
      ensures w.RegOk(q)
    {
      assert v.RegOk(q);
    }
  }

  /** Once no cell of an id is chained, each reaches the object in the dereferences it is owed. */
  lemma {:induction false} TrackReaches(v: View, a: Addr)
    requires v.Valid() && a in v.track && Entered(v.iht, v.track[a].id) && v.chain[v.track[a].id] == []
    ensures Reaches(v.mem, a, v.track[a].dist, v.iht[v.track[a].id].ptr)
    decreases v.track[a].dist
  {
    assert v.TrackOk(a);
    if v.track[a].dist > 1 {
      TrackReaches(v, v.mem[a]);
    }
  }

  lemma EveryRegReaches(v: View)
    requires v.Valid()
    requires forall id :: Entered(v.iht, id) ==> v.chain[id] == []
    ensures forall p :: p in v.regs ==> v.Connected(p)
  {
    forall p | p in v.regs
      ensures v.Connected(p)
    {
      assert v.RegOk(p);
      if Entered(v.iht, v.regs[p].id) {
        TrackReaches(v, p);
      }
    }
  }

  /** All references to an id resolve in the levels between the href and the object, plus one. */
  ghost predicate Alike(v: View, id: string)
    requires v.Valid() && Entered(v.iht, id)
  {
    forall p :: p in v.regs && v.regs[p].id == id ==> v.Owed(p) == v.regs[p].level - v.iht[id].level + 1
  }

  /** Forward and backward references to an id resolve alike exactly if the lowest level referred to
      before the object was read is the object's own, and no later reference is closer than that. */
  lemma ResolveAlikeIff(v: View, id: string)
    requires v.Valid() && v.Tight() && Entered(v.iht, id)
    ensures Alike(v, id) <==>
      && ((exists p :: v.EarlyFor(p, id)) ==> v.low[id] == v.iht[id].level)
      && (forall p :: p in v.regs && v.regs[p].id == id && !v.regs[p].early ==> v.regs[p].level >= v.iht[id].level)
  {
    assert v.LowAttained(id);
    if Alike(v, id) && exists p :: v.EarlyFor(p, id) {
      var x :| v.LowestFor(x, id);
      assert v.Owed(x) == 1;
    }
    forall p | p in v.regs && v.regs[p].id == id
      ensures v.regs[p].early && v.low[id] == v.iht[id].level ==> v.Owed(p) == v.regs[p].level - v.iht[id].level + 1
      ensures v.regs[p].early ==> v.EarlyFor(p, id)
    {
      assert v.RegOk(p);
    }
  }

  /** No id has been entered, and none forgotten. */
  ghost predicate SameEntered(iht0: map<string, Ilist>, iht: map<string, Ilist>) {
    && iht0.Keys <= iht.Keys
    && (forall i :: i in iht0 ==> iht[i].ptr == iht0[i].ptr && iht[i].typ == iht0[i].typ)
    && (forall i :: i in iht0 && iht0[i].ptr != NULL ==> iht[i] == iht0[i])
    && (forall i :: i in iht && i !in iht0 ==> iht[i].ptr == NULL)
  }

  lemma SameEnteredTwice(a: map<string, Ilist>, b: map<string, Ilist>, c: map<string, Ilist>)
    requires SameEntered(a, b) && SameEntered(b, c)
    ensures SameEntered(a, c)
  {
  }

  lemma AllocationKeepsValid(v: View, q: Addr, junk: Addr)
    requires v.Valid() && v.Tight() && q !in v.mem && q != NULL
    ensures v.(mem := v.mem[q := junk]).Valid() && v.(mem := v.mem[q := junk]).Tight()
  {
    var w := v.(mem := v.mem[q := junk]);
    TrackedInMemory(v);
    forall i | i in w.iht
      ensures w.ChainOk(i) && w.LowOk(i)
    {
      assert v.ChainOk(i) && v.LowOk(i);
    }
    forall i | i in w.iht
      ensures w.LowAttained(i)
    {
      assert v.LowAttained(i);
      SameLowest(v, w, i);
    }
    forall a | a in w.track
      ensures w.TrackOk(a)
    {
      assert v.TrackOk(a);
    }
    forall p | p in w.regs
      ensures w.RegOk(p)
    {
      assert v.RegOk(p);
    }
  }

  lemma SameLowest(v: View, w: View, id: string)
    requires w.regs == v.regs && id in v.low && id in w.low && w.low[id] == v.low[id]
    requires id in v.iht && id in w.iht && (w.iht[id].ptr == NULL ==> v.iht[id].ptr == NULL)
    requires v.LowAttained(id)
    ensures w.LowAttained(id)
  {
    if w.iht[id].ptr == NULL || exists q :: w.EarlyFor(q, id) {
      if v.iht[id].ptr != NULL {
        var q :| w.EarlyFor(q, id);
        assert v.EarlyFor(q, id);
      }
      var x :| v.LowestFor(x, id);
      assert w.LowestFor(x, id);
    }
  }

  lemma EnterNewKeepsValid(v: View, id: string, p: Addr, t: int, n: nat, k: nat)
    requires v.Valid() && v.Tight() && id !in v.iht && p != NULL
    ensures
      var w := v.(iht := v.iht[id := Ilist(t, n, NULL, p, k)], chain := v.chain[id := []], low := v.low[id := k]);
      w.Valid() && w.Tight()
  {
    var w := v.(iht := v.iht[id := Ilist(t, n, NULL, p, k)], chain := v.chain[id := []], low := v.low[id := k]);
    forall a | a in w.track
      ensures w.TrackOk(a) && w.track[a].id != id
    {
      assert v.TrackOk(a);
    }
    forall q | q in w.regs
      ensures w.RegOk(q) && w.regs[q].id != id
    {
      assert v.RegOk(q);
    }
    forall i | i in w.iht
      ensures w.ChainOk(i) && w.LowOk(i)
    {
      if i != id {
        assert v.ChainOk(i) && v.LowOk(i);
      }
    }
    forall i | i in w.iht
      ensures w.LowAttained(i)
    {
      if i != id {
        assert v.LowAttained(i);
        SameLowest(v, w, i);
      }
    }
  }

  lemma EnterAwaitedKeepsValid(v: View, id: string, p: Addr, n: nat, k: nat)
    requires v.Valid() && v.Tight() && Awaited(v.iht, id) && p != NULL
    ensures
      var w := v.(iht := v.iht[id := v.iht[id].(size := n, ptr := p, level := k)]);
      w.Valid() && w.Tight()
  {
    var w := v.(iht := v.iht[id := v.iht[id].(size := n, ptr := p, level := k)]);
    forall a | a in w.track
      ensures w.TrackOk(a)
    {
      assert v.TrackOk(a);
    }
    forall q | q in w.regs
      ensures w.RegOk(q)
    {
      assert v.RegOk(q);
    }
    forall i | i in w.iht
      ensures w.ChainOk(i) && w.LowOk(i)
    {
      assert v.ChainOk(i) && v.LowOk(i);
    }
    forall i | i in w.iht
      ensures w.LowAttained(i)
    {
      assert v.LowAttained(i);
      SameLowest(v, w, i);
    }
  }

  lemma LoweringKeepsLowest(v: View, w: View, id: string, k: nat)
    requires v.Valid() && v.Tight() && w.Valid() && LoweredFrom(v, w, id) && w.iht[id].level == k
    ensures w.TightBut(id, k) && SameEntered(v.iht, w.iht)
  {
    forall i | i in w.iht && i != id
      ensures w.LowAttained(i)
    {
      assert v.LowAttained(i);
      SameLowest(v, w, i);
    }
  }

  /** A reference to an object of another type than the one entered under its id. */
  predicate Clashes(iht: map<string, Ilist>, id: string, t: int) {
    id in iht && iht[id].ptr != NULL && iht[id].typ != t
  }

  /** The cells of a path, each one dereference closer to the object than the one before. */
  ghost function Tracked(track: map<Addr, Track>, id: string, path: seq<Addr>): map<Addr, Track>
    decreases path
  {
    if path == [] then track else Tracked(track, id, path[1..])[path[0] := Track(id, |path|)]
  }

  lemma {:induction false} TrackedIs(track: map<Addr, Track>, id: string, path: seq<Addr>)
    requires forall i, j :: 0 <= i < j < |path| ==> path[i] != path[j]
    ensures forall a :: a in Tracked(track, id, path) <==> a in track || a in path
    ensures forall a :: a in track && a !in path ==> Tracked(track, id, path)[a] == track[a]
    ensures forall i :: 0 <= i < |path| ==> path[i] in Tracked(track, id, path) && Tracked(track, id, path)[path[i]] == Track(id, |path| - i)
    decreases path
  {
    if path != [] {
      TrackedIs(track, id, path[1..]);
      forall i | 0 < i < |path|
        ensures path[i] in Tracked(track, id, path) && Tracked(track, id, path)[path[i]] == Track(id, |path| - i)
      {
        assert path[i] == path[1..][i - 1];
      }
    }
  }

  ghost function FirstHref(v: View, id: string, p: Addr, t: int, n: nat, k: nat): View {
    View(v.mem[p := NULL], v.iht[id := Ilist(t, n, p, NULL, k)], v.chain[id := [p]],
         v.track[p := Track(id, 1)], v.regs[p := Reg(id, k, true)], v.low[id := k])
  }

  /** A further registration keeps the lowest level of an id, unless it is the first early one. */
  lemma AttainedKept(v: View, w: View, p: Addr, id: string)
    requires p !in v.regs && p in w.regs && w.regs == v.regs[p := w.regs[p]]
    requires id in v.low && id in v.iht && id in w.low && id in w.iht && v.LowAttained(id)
    requires w.iht[id].ptr == NULL ==> v.iht[id].ptr == NULL
    requires w.low[id] == v.low[id]
    requires w.regs[p].early && w.regs[p].id == id ==> v.iht[id].ptr == NULL
    ensures w.LowAttained(id)
  {
    if w.iht[id].ptr == NULL || exists q :: w.EarlyFor(q, id) {
      if v.iht[id].ptr != NULL {
        var q :| w.EarlyFor(q, id);
        assert v.EarlyFor(q, id);
      }
      var x :| v.LowestFor(x, id);
      assert w.LowestFor(x, id);
    }
  }

  lemma FirstHrefKeepsCells(v: View, id: string, p: Addr, t: int, n: nat, k: nat)
    requires v.Valid() && id !in v.iht && p in v.mem && p !in v.track
    ensures
      var w := FirstHref(v, id, p, t, n, k);
      w.Shape() && w.ChainsOk() && w.TracksOk()
  {
    var w := FirstHref(v, id, p, t, n, k);
    TrackedInMemory(v);
    forall i | i in w.iht
      ensures w.ChainOk(i)
    {
      if i != id {
        assert v.ChainOk(i);
      }
    }
    forall a | a in w.track
      ensures w.TrackOk(a)
    {
      if a != p {
        assert v.TrackOk(a);
      }
    }
  }

  lemma FirstHrefKeepsLevels(v: View, id: string, p: Addr, t: int, n: nat, k: nat)
    requires v.Valid() && v.Tight() && id !in v.iht && p in v.mem && p !in v.track
    ensures
      var w := FirstHref(v, id, p, t, n, k);
      w.Shape() && w.LowsOk() && w.RegsOk() && w.Tight()
  {
    var w := FirstHref(v, id, p, t, n, k);
    RegsTracked(v);
    forall i | i in w.iht
      ensures w.LowOk(i) && w.LowAttained(i)
    {
      if i == id {
        assert w.LowestFor(p, id);
      } else {
        assert v.LowOk(i) && v.LowAttained(i);
        AttainedKept(v, w, p, i);
      }
    }
    forall q | q in w.regs
      ensures w.RegOk(q)
    {
      if q != p {
        assert v.RegOk(q);
      }
    }
  }

  lemma FirstHrefKeepsValid(v: View, id: string, p: Addr, t: int, n: nat, k: nat)
    requires v.Valid() && v.Tight() && id !in v.iht && p in v.mem && p !in v.track
    ensures FirstHref(v, id, p, t, n, k).Valid() && FirstHref(v, id, p, t, n, k).Tight()
  {
    FirstHrefKeepsCells(v, id, p, t, n, k);
    FirstHrefKeepsLevels(v, id, p, t, n, k);
  }

  lemma RegsTracked(v: View)
    requires v.Valid()
    ensures forall p :: p in v.regs ==> p in v.track && p in v.mem
  {
    TrackedInMemory(v);
    forall p | p in v.regs
      ensures p in v.track
    {
      assert v.RegOk(p);
    }
  }

  ghost function ResolvedHref(v: View, id: string, mem: map<Addr, Addr>, path: seq<Addr>, k: nat): View
    requires id in v.iht && path != []
  {
    v.(mem := mem[path[|path| - 1] := v.iht[id].ptr], track := Tracked(v.track, id, path),
       regs := v.regs[path[0] := Reg(id, k, false)])
  }

  lemma {:induction false} PathLeads(mem: map<Addr, Addr>, path: seq<Addr>)
    requires path != [] && forall i :: 0 <= i < |path| - 1 ==> path[i] in mem && mem[path[i]] == path[i + 1]
    ensures Reaches(mem, path[0], |path| - 1, path[|path| - 1])
  {
    if |path| > 1 {
      PathLeads(mem, path[1..]);
    }
  }

  /** The end of a path is the last cell on the way, and only the path has changed. */
  lemma PathEnds(v: View, id: string, mem: map<Addr, Addr>, path: seq<Addr>, x: Addr)
    requires v.Valid() && FreshPath(v, mem, path)
    ensures
      var w := v.(mem := mem[path[|path| - 1] := x], track := Tracked(v.track, id, path));
      w.LastCell(path[0], path[|path| - 1], id) && Grows(v, w, path[0])
  {
    TrackedIs(v.track, id, path);
    TrackedInMemory(v);
    PathLeads(mem[path[|path| - 1] := x], path);
  }

  /** A path that leaves from a cell not used so far, through fresh cells. */
  ghost predicate FreshPath(v: View, mem: map<Addr, Addr>, path: seq<Addr>) {
    path != [] && path[0] in v.mem && path[0] !in v.track && Descended(v.mem, mem, path[0], path)
  }

  /** Adding a path leaves the cells in use as they are. */
  lemma PathKeepsCell(v: View, mem: map<Addr, Addr>, path: seq<Addr>, x: Addr, a: Addr)
    requires v.Valid() && FreshPath(v, mem, path) && a in v.track
    ensures a !in path && a in mem && mem[path[|path| - 1] := x][a] == v.mem[a]
  {
    TrackedInMemory(v);
  }

  lemma PathKeepsTrack(v: View, w: View, id: string, mem: map<Addr, Addr>, path: seq<Addr>, x: Addr, a: Addr)
    requires v.Valid() && FreshPath(v, mem, path) && a in v.track
    requires w.mem == mem[path[|path| - 1] := x] && w.track == Tracked(v.track, id, path)
    requires w.iht.Keys == v.iht.Keys == w.chain.Keys
    requires forall i :: i in v.iht ==> w.iht[i].ptr == v.iht[i].ptr
    requires forall i, c :: i in v.iht && c in v.chain[i] ==> c in w.chain[i]
    ensures a in w.track && w.TrackOk(a)
  {
    TrackedIs(v.track, id, path);
    PathKeepsCell(v, mem, path, x, a);
    assert v.TrackOk(a);
    if v.track[a].dist > 1 {
      PathKeepsCell(v, mem, path, x, v.mem[a]);
    }
  }

  lemma PathTracks(v: View, w: View, id: string, mem: map<Addr, Addr>, path: seq<Addr>, x: Addr, i: nat)
    requires v.Valid() && FreshPath(v, mem, path) && i < |path|
    requires w.mem == mem[path[|path| - 1] := x] && w.track == Tracked(v.track, id, path)
    requires w.iht.Keys == w.chain.Keys && id in w.iht
    requires path[|path| - 1] in w.chain[id] || (w.iht[id].ptr != NULL && x == w.iht[id].ptr)
    ensures path[i] in w.track && w.TrackOk(path[i])
  {
    TrackedIs(v.track, id, path);
    if i < |path| - 1 {
      assert mem[path[i]] == path[i + 1] && path[i] != path[|path| - 1];
    }
  }

  lemma PathKeepsReg(v: View, w: View, id: string, mem: map<Addr, Addr>, path: seq<Addr>, q: Addr)
    requires v.Valid() && FreshPath(v, mem, path) && q in v.regs
    requires path[0] in w.regs && w.regs == v.regs[path[0] := w.regs[path[0]]]
    requires w.track == Tracked(v.track, id, path) && w.low == v.low && w.iht.Keys == v.iht.Keys
    requires forall i :: i in v.iht ==> w.iht[i].ptr == v.iht[i].ptr && w.iht[i].level == v.iht[i].level
    ensures q in w.regs && w.RegOk(q)
  {
    RegsTracked(v);
    TrackedIs(v.track, id, path);
    PathKeepsCell(v, mem, path, 0, q);
    assert v.RegOk(q);
  }

  /** The cells of a chain are in use, and so are left as they are. */
  lemma PathKeepsChain(v: View, id: string, mem: map<Addr, Addr>, path: seq<Addr>, x: Addr, i: string)
    requires v.Valid() && FreshPath(v, mem, path) && i in v.iht
    ensures Chained(mem[path[|path| - 1] := x], v.iht[i].link, v.chain[i])
    ensures forall c :: c in v.chain[i] ==> c !in path && c in Tracked(v.track, id, path)
    ensures forall c :: c in v.chain[i] ==> Tracked(v.track, id, path)[c] == Track(i, 1)
  {
    assert v.ChainOk(i);
    TrackedIs(v.track, id, path);
    forall c | c in v.chain[i]
      ensures c !in path && c in mem && mem[path[|path| - 1] := x][c] == v.mem[c]
    {
      PathKeepsCell(v, mem, path, x, c);
    }
  }

  lemma ResolvedHrefKeepsCells(v: View, id: string, mem: map<Addr, Addr>, path: seq<Addr>, k: nat)
    requires v.Valid() && v.Tight() && id in v.iht && v.iht[id].ptr != NULL
    requires FreshPath(v, mem, path)
    requires |path| == (if v.iht[id].level < k then k - v.iht[id].level else 0) + 1
    ensures
      var w := ResolvedHref(v, id, mem, path, k);
      w.Shape() && w.ChainsOk() && w.TracksOk()
  {
    var w := ResolvedHref(v, id, mem, path, k);
    var x := v.iht[id].ptr;
    TrackedIs(v.track, id, path);
    forall i | i in w.iht
      ensures w.ChainOk(i)
    {
      PathKeepsChain(v, id, mem, path, x, i);
    }
    forall a | a in w.track
      ensures w.TrackOk(a)
    {
      if a in path {
        var i :| 0 <= i < |path| && path[i] == a;
        PathTracks(v, w, id, mem, path, x, i);
      } else {
        PathKeepsTrack(v, w, id, mem, path, x, a);
      }
    }
  }

  lemma ResolvedHrefKeepsLevels(v: View, id: string, mem: map<Addr, Addr>, path: seq<Addr>, k: nat)
    requires v.Valid() && v.Tight() && id in v.iht && v.iht[id].ptr != NULL
    requires FreshPath(v, mem, path)
    requires |path| == (if v.iht[id].level < k then k - v.iht[id].level else 0) + 1
    ensures
      var w := ResolvedHref(v, id, mem, path, k);
      w.Shape() && w.LowsOk() && w.RegsOk() && w.Tight()
  {
    var w := ResolvedHref(v, id, mem, path, k);
    TrackedIs(v.track, id, path);
    RegsTracked(v);
    forall i | i in w.iht
      ensures w.LowOk(i) && w.LowAttained(i)
    {
      assert v.LowOk(i) && v.LowAttained(i);
      AttainedKept(v, w, path[0], i);
    }
    forall q | q in w.regs
      ensures w.RegOk(q)
    {
      if q != path[0] {
        PathKeepsReg(v, w, id, mem, path, q);
      }
    }
  }

  lemma ResolvedHrefKeepsValid(v: View, id: string, mem: map<Addr, Addr>, path: seq<Addr>, k: nat)
    requires v.Valid() && v.Tight() && id in v.iht && v.iht[id].ptr != NULL
    requires FreshPath(v, mem, path)
    requires |path| == (if v.iht[id].level < k then k - v.iht[id].level else 0) + 1
    ensures ResolvedHref(v, id, mem, path, k).Valid() && ResolvedHref(v, id, mem, path, k).Tight()
  {
    ResolvedHrefKeepsCells(v, id, mem, path, k);
    ResolvedHrefKeepsLevels(v, id, mem, path, k);
  }

  ghost function ForwardHref(v: View, id: string, mem: map<Addr, Addr>, path: seq<Addr>, k: nat): View
    requires id in v.iht && id in v.chain && path != []
  {
    var last := path[|path| - 1];
    View(mem[last := v.iht[id].link], v.iht[id := v.iht[id].(link := last)], v.chain[id := [last] + v.chain[id]],
         Tracked(v.track, id, path), v.regs[path[0] := Reg(id, k, true)], v.low)
  }

  lemma ForwardHrefKeepsChain(v: View, id: string, mem: map<Addr, Addr>, path: seq<Addr>, k: nat)
    requires v.Valid() && Awaited(v.iht, id) && FreshPath(v, mem, path)
    ensures ForwardHref(v, id, mem, path, k).ChainOk(id)
  {
    var w := ForwardHref(v, id, mem, path, k);
    var last, c := path[|path| - 1], v.chain[id];
    PathKeepsChain(v, id, mem, path, v.iht[id].link, id);
    TrackedIs(v.track, id, path);
    forall j | 0 <= j < |c| + 1
      ensures w.chain[id][j] in w.mem && w.mem[w.chain[id][j]] == After(w.chain[id], j)
    {
      if j > 0 {
        assert w.mem[c[j - 1]] == After(c, j - 1);
      }
    }
  }

  lemma ForwardHrefKeepsTrack(v: View, id: string, mem: map<Addr, Addr>, path: seq<Addr>, k: nat, a: Addr)
    requires v.Valid() && Awaited(v.iht, id) && FreshPath(v, mem, path)
    requires a in ForwardHref(v, id, mem, path, k).track
    ensures ForwardHref(v, id, mem, path, k).TrackOk(a)
  {
    var w := ForwardHref(v, id, mem, path, k);
    TrackedIs(v.track, id, path);
    if a in path {
      var i :| 0 <= i < |path| && path[i] == a;
      PathTracks(v, w, id, mem, path, v.iht[id].link, i);
    } else {
      PathKeepsTrack(v, w, id, mem, path, v.iht[id].link, a);
    }
  }

  lemma ForwardHrefKeepsTracks(v: View, id: string, mem: map<Addr, Addr>, path: seq<Addr>, k: nat)
    requires v.Valid() && Awaited(v.iht, id) && FreshPath(v, mem, path)
    ensures ForwardHref(v, id, mem, path, k).Shape() && ForwardHref(v, id, mem, path, k).TracksOk()
  {
    forall a | a in ForwardHref(v, id, mem, path, k).track
      ensures ForwardHref(v, id, mem, path, k).TrackOk(a)
    {
      ForwardHrefKeepsTrack(v, id, mem, path, k, a);
    }
  }

  lemma ForwardHrefKeepsRegs(v: View, id: string, mem: map<Addr, Addr>, path: seq<Addr>, k: nat)
    requires v.Valid() && Awaited(v.iht, id) && v.iht[id].level <= k && FreshPath(v, mem, path)
    requires |path| == k - v.iht[id].level + 1
    ensures ForwardHref(v, id, mem, path, k).Shape() && ForwardHref(v, id, mem, path, k).RegsOk()
  {
    var w := ForwardHref(v, id, mem, path, k);
    TrackedIs(v.track, id, path);
    assert v.LowOk(id);
    forall q | q in w.regs
      ensures w.RegOk(q)
    {
      if q != path[0] {
        PathKeepsReg(v, w, id, mem, path, q);
      }
    }
  }

  lemma ForwardHrefKeepsLows(v: View, id: string, mem: map<Addr, Addr>, path: seq<Addr>, k: nat)
    requires v.Valid() && Awaited(v.iht, id) && v.iht[id].level <= k && FreshPath(v, mem, path)
    requires v.TightBut(id, k)
    ensures
      var w := ForwardHref(v, id, mem, path, k);
      w.Shape() && w.LowsOk() && w.Tight()
  {
    var w := ForwardHref(v, id, mem, path, k);
    RegsTracked(v);
    forall i | i in w.iht
      ensures w.LowOk(i) && w.LowAttained(i)
    {
      assert v.LowOk(i);
      if i == id && v.iht[id].level == k {
        assert w.LowestFor(path[0], id);
      } else {
        AttainedKept(v, w, path[0], i);
      }
    }
  }

  lemma ForwardHrefKeepsValid(v: View, id: string, mem: map<Addr, Addr>, path: seq<Addr>, k: nat)
    requires v.Valid() && Awaited(v.iht, id) && v.iht[id].level <= k && FreshPath(v, mem, path)
    requires v.TightBut(id, k)
    requires |path| == k - v.iht[id].level + 1
    ensures ForwardHref(v, id, mem, path, k).Valid() && ForwardHref(v, id, mem, path, k).Tight()
  {
    var w := ForwardHref(v, id, mem, path, k);
    forall i | i in w.iht
      ensures w.ChainOk(i)
    {
      if i == id {
        ForwardHrefKeepsChain(v, id, mem, path, k);
      } else {
        PathKeepsChain(v, id, mem, path, v.iht[id].link, i);
      }
    }
    ForwardHrefKeepsTracks(v, id, mem, path, k);
    ForwardHrefKeepsRegs(v, id, mem, path, k);
    ForwardHrefKeepsLows(v, id, mem, path, k);
  }

  /** An id that has been referred to and not been entered. */
  predicate Awaited(iht: map<string, Ilist>, id: string) {
    id in iht && iht[id].ptr == NULL
  }

  /** Memory nobody waits in is left alone, but for the cell p; and only that and fresh cells are put to use. */
  ghost predicate Grows(v: View, w: View, p: Addr) {
    && v.mem.Keys <= w.mem.Keys && v.track.Keys <= w.track.Keys
    && (forall a :: a in w.track && a !in v.track ==> a == p || a !in v.mem)
    && (forall a :: a in v.mem && a !in v.track && a != p ==> w.mem[a] == v.mem[a])
  }

  lemma GrowsTwice(u: View, v: View, w: View, p: Addr)
    requires NULL !in u.mem && Grows(u, v, NULL) && Grows(v, w, p)
    ensures Grows(u, w, p)
  {
  }

  /** w is v with the awaited id at a lower level: cells stay in use, and are only put to use afresh. */
  ghost predicate LoweredFrom(v: View, w: View, id: string) {
    && Awaited(v.iht, id) && Awaited(w.iht, id) && w.iht[id].typ == v.iht[id].typ
    && w.iht.Keys == v.iht.Keys && (forall i :: i in w.iht && i != id ==> w.iht[i] == v.iht[i])
    && w.regs == v.regs && v.low.Keys == w.low.Keys && (forall i :: i in w.low && i != id ==> w.low[i] == v.low[i])
    && Grows(v, w, NULL) && (forall a :: a in w.track && a !in v.track ==> a !in v.mem)
  }

  /** The fresh cells of a pass so far: chained from head up to the cell r, which is still to be written. */
  ghost predicate NewCells(mem0: map<Addr, Addr>, mem: map<Addr, Addr>, head: Addr, news: seq<Addr>, r: Addr) {
    && NULL !in mem && (forall a :: a in mem <==> a in mem0 || a in news)
    && (forall i :: 0 <= i < |news| ==> news[i] !in mem0)
    && (forall i, j :: 0 <= i < j < |news| ==> news[i] != news[j])
    && (forall i :: 0 <= i < |news| - 1 ==> mem[news[i]] == news[i + 1])
    && (if news == [] then r == NULL else r == news[|news| - 1] && head == news[0])
  }

  /** The first |news| cells of the chain c hold the fresh cells, the others what they held before. */
  ghost predicate OldCells(mem0: map<Addr, Addr>, mem: map<Addr, Addr>, c: seq<Addr>, news: seq<Addr>) {
    && mem0.Keys <= mem.Keys && |news| <= |c|
    && (forall a :: a in mem0 && a !in c ==> mem[a] == mem0[a])
    && (forall i :: 0 <= i < |c| ==> c[i] in mem0)
    && (forall i {:trigger After(c, i)} :: |news| <= i < |c| ==> mem[c[i]] == After(c, i))
    && (forall i :: 0 <= i < |news| ==> mem[c[i]] == news[i])
  }

  /** The write through r, which is no cell before the first one of a new chain. */
  function LinkedTo(mem: map<Addr, Addr>, r: Addr, cell: Addr): map<Addr, Addr> {
    if r == NULL then mem else mem[r := cell]
  }

  lemma PassOneNew(
      mem0: map<Addr, Addr>, mem: map<Addr, Addr>, head: Addr, news: seq<Addr>, r: Addr,
      q: Addr, cell: Addr, junk: Addr)
    requires NewCells(mem0, mem, head, news, r) && q in mem0
    requires cell !in mem && cell != NULL
    ensures NewCells(mem0, LinkedTo(mem[cell := junk], r, cell)[q := cell],
                     if r == NULL then cell else head, news + [cell], cell)
  {
    var m, ns := LinkedTo(mem[cell := junk], r, cell)[q := cell], news + [cell];
    forall a
      ensures a in m <==> a in mem0 || a in ns
    {
      assert a in ns <==> a in news || a == cell;
    }
    forall i | 0 <= i < |ns| - 1
      ensures m[ns[i]] == ns[i + 1]
    {
      assert news[i] !in mem0;
      if i < |news| - 1 {
        assert news[i] != news[|news| - 1] && mem[news[i]] == news[i + 1];
      }
    }
  }

  lemma OldCellsApart(
      mem0: map<Addr, Addr>, mem: map<Addr, Addr>, m: map<Addr, Addr>, c: seq<Addr>, news: seq<Addr>)
    requires OldCells(mem0, mem, c, news)
    requires mem0.Keys <= m.Keys && forall a :: a in mem0 ==> m[a] == mem[a]
    ensures OldCells(mem0, m, c, news)
  {
    forall i | |news| <= i < |c|
      ensures c[i] in mem0 && m[c[i]] == After(c, i)
    {
      assert c[i] in mem0 && mem[c[i]] == After(c, i);
    }
    forall i | 0 <= i < |news|
      ensures c[i] in mem0 && m[c[i]] == news[i]
    {
      assert c[i] in mem0 && mem[c[i]] == news[i];
    }
  }

  lemma OldCellWritten(mem0: map<Addr, Addr>, m: map<Addr, Addr>, c: seq<Addr>, news: seq<Addr>, cell: Addr)
    requires OldCells(mem0, m, c, news) && |news| < |c|
    requires forall i, j :: 0 <= i < j < |c| ==> c[i] != c[j]
    ensures OldCells(mem0, m[c[|news|] := cell], c, news + [cell])
  {
    var j := |news|;
    var w := m[c[j] := cell];
    forall i | j + 1 <= i < |c|
      ensures c[i] in mem0 && w[c[i]] == After(c, i)
    {
      assert c[i] in mem0 && m[c[i]] == After(c, i) && c[j] != c[i];
    }
    forall i | 0 <= i < j + 1
      ensures c[i] in mem0 && w[c[i]] == (news + [cell])[i]
    {
      if i < j {
        assert c[i] in mem0 && c[i] != c[j] && m[c[i]] == news[i];
      }
    }
  }

  lemma PassOneOld(
      mem0: map<Addr, Addr>, mem: map<Addr, Addr>, c: seq<Addr>, news: seq<Addr>, r: Addr, cell: Addr, junk: Addr)
    requires OldCells(mem0, mem, c, news) && |news| < |c|
    requires forall i, j :: 0 <= i < j < |c| ==> c[i] != c[j]
    requires cell !in mem && r !in mem0
    ensures
      var m := LinkedTo(mem[cell := junk], r, cell);
      && c[|news|] in m && m[c[|news|]] == After(c, |news|)
      && OldCells(mem0, m[c[|news|] := cell], c, news + [cell])
  {
    var m := LinkedTo(mem[cell := junk], r, cell);
    OldCellsApart(mem0, mem, m, c, news);
    OldCellWritten(mem0, m, c, news, cell);
  }

  lemma PassDone(
      mem0: map<Addr, Addr>, mem: map<Addr, Addr>, c: seq<Addr>, head: Addr, news: seq<Addr>, r: Addr)
    requires NewCells(mem0, mem, head, news, r) && OldCells(mem0, mem, c, news) && |news| == |c|
    ensures PushedDown(mem0, LinkedTo(mem, r, NULL), c, if r == NULL then NULL else head, news)
  {
  }

  /** Each cell of path holds the next one; all but the first are new, and nothing else changed. */
  ghost predicate Descended(mem0: map<Addr, Addr>, mem: map<Addr, Addr>, p: Addr, path: seq<Addr>) {
    && NULL !in mem && path != [] && path[0] == p
    && (forall a :: a in mem <==> a in mem0 || a in path)
    && (forall a :: a in mem0 && a != p ==> mem[a] == mem0[a])
    && (forall i :: 0 < i < |path| ==> path[i] !in mem0)
    && (forall i, j :: 0 <= i < j < |path| ==> path[i] != path[j])
    && (forall i :: 0 <= i < |path| - 1 ==> mem[path[i]] == path[i + 1])
  }

  /** What every cell of an id is owed once its chain has been moved down to the cells news. */
  ghost function LoweredTrack(track: map<Addr, Track>, id: string, news: seq<Addr>): map<Addr, Track> {
    map a | a in track.Keys + (set x | x in news) ::
      if a !in track then Track(id, 1)
      else if track[a].id == id then Track(id, track[a].dist + 1)
      else track[a]
  }

  ghost function Lowered(v: View, id: string, n: nat, mem: map<Addr, Addr>, head: Addr, news: seq<Addr>): View
    requires Awaited(v.iht, id) && v.iht[id].level > 0
  {
    var e := v.iht[id];
    View(mem, v.iht[id := e.(link := head, size := n, level := e.level - 1)],
         v.chain[id := news], LoweredTrack(v.track, id, news), v.regs, v.low[id := e.level - 1])
  }

  lemma TrackedInMemory(v: View)
    requires v.Valid()
    ensures forall a :: a in v.track ==> a in v.mem
  {
    forall a | a in v.track
      ensures a in v.mem
    {
      assert v.TrackOk(a);
    }
  }

  lemma LowerKeepsChains(v: View, id: string, n: nat, mem: map<Addr, Addr>, head: Addr, news: seq<Addr>, i: string)
    requires v.Valid() && Awaited(v.iht, id) && v.iht[id].level > 0
    requires PushedDown(v.mem, mem, v.chain[id], head, news)
    requires i in v.iht
    ensures Lowered(v, id, n, mem, head, news).ChainOk(i)
  {
    assert v.ChainOk(i) && v.ChainOk(id);
    TrackedInMemory(v);
    var w := Lowered(v, id, n, mem, head, news);
    if i == id {
      assert Chained(w.mem, w.iht[i].link, w.chain[i]);
      forall c | c in news ensures c in w.track && w.track[c] == Track(id, 1) {
      }
    } else {
      var c := v.chain[i];
      forall j | 0 <= j < |c|
        ensures c[j] in w.mem && w.mem[c[j]] == After(c, j)
      {
        assert c[j] in v.chain[i] && v.track[c[j]] == Track(i, 1);
        assert c[j] !in v.chain[id];
      }
      assert Chained(w.mem, w.iht[i].link, w.chain[i]);
    }
  }

  lemma LowerKeepsTracks(v: View, id: string, n: nat, mem: map<Addr, Addr>, head: Addr, news: seq<Addr>, a: Addr)
    requires v.Valid() && Awaited(v.iht, id) && v.iht[id].level > 0
    requires PushedDown(v.mem, mem, v.chain[id], head, news)
    requires a in v.track || a in news
    ensures Lowered(v, id, n, mem, head, news).TrackOk(a)
  {
    assert v.ChainOk(id);
    TrackedInMemory(v);
    var w := Lowered(v, id, n, mem, head, news);
    var c := v.chain[id];
    if a !in v.track {
      assert w.track[a] == Track(id, 1) && a in w.chain[id];
    } else {
      assert v.TrackOk(a);
      var t := v.track[a];
      if a in c {
        var j :| 0 <= j < |c| && c[j] == a;
        assert mem[a] == news[j] && news[j] !in v.track;
      } else {
        assert mem[a] == v.mem[a];
      }
    }
  }

  lemma LowerKeepsRegs(v: View, id: string, n: nat, mem: map<Addr, Addr>, head: Addr, news: seq<Addr>, p: Addr)
    requires v.Valid() && Awaited(v.iht, id) && v.iht[id].level > 0
    requires p in v.regs
    ensures Lowered(v, id, n, mem, head, news).RegOk(p)
  {
    assert v.RegOk(p) && v.LowOk(id);
  }

  lemma LowerKeepsCells(v: View, id: string, n: nat, mem: map<Addr, Addr>, head: Addr, news: seq<Addr>)
    requires v.Valid() && Awaited(v.iht, id) && v.iht[id].level > 0
    requires PushedDown(v.mem, mem, v.chain[id], head, news)
    ensures
      var w := Lowered(v, id, n, mem, head, news);
      w.Shape() && w.ChainsOk() && w.TracksOk()
  {
    var w := Lowered(v, id, n, mem, head, news);
    forall i | i in w.iht
      ensures w.ChainOk(i)
    {
      LowerKeepsChains(v, id, n, mem, head, news, i);
    }
    forall a | a in w.track
      ensures w.TrackOk(a)
    {
      LowerKeepsTracks(v, id, n, mem, head, news, a);
    }
  }

  lemma LowerKeepsLevels(v: View, id: string, n: nat, mem: map<Addr, Addr>, head: Addr, news: seq<Addr>)
    requires v.Valid() && Awaited(v.iht, id) && v.iht[id].level > 0
    requires PushedDown(v.mem, mem, v.chain[id], head, news)
    ensures
      var w := Lowered(v, id, n, mem, head, news);
      w.Shape() && w.LowsOk() && w.RegsOk()
  {
    var w := Lowered(v, id, n, mem, head, news);
    forall i | i in w.iht
      ensures w.LowOk(i)
    {
      assert v.LowOk(i);
    }
    forall p | p in w.regs
      ensures w.RegOk(p)
    {
      LowerKeepsRegs(v, id, n, mem, head, news, p);
    }
  }

  lemma LowerKeepsValid(v: View, id: string, n: nat, mem: map<Addr, Addr>, head: Addr, news: seq<Addr>)
    requires v.Valid() && Awaited(v.iht, id) && v.iht[id].level > 0
    requires PushedDown(v.mem, mem, v.chain[id], head, news)
    ensures Lowered(v, id, n, mem, head, news).Valid()
  {
    LowerKeepsCells(v, id, n, mem, head, news);
    LowerKeepsLevels(v, id, n, mem, head, news);
  }

  lemma LowerGrows(v: View, id: string, n: nat, mem: map<Addr, Addr>, head: Addr, news: seq<Addr>)
    requires v.Valid() && Awaited(v.iht, id) && v.iht[id].level > 0
    requires PushedDown(v.mem, mem, v.chain[id], head, news)
    ensures LoweredFrom(v, Lowered(v, id, n, mem, head, news), id)
  {
    assert v.ChainOk(id);
  }

  /** The cells news, none of them used before, stand in the chain for the cells c, which point to them. */
  ghost predicate PushedDown(
      mem0: map<Addr, Addr>, mem: map<Addr, Addr>, c: seq<Addr>, head: Addr, news: seq<Addr>) {
    && NULL !in mem && |news| == |c|
    && (forall a :: a in mem <==> a in mem0 || a in news)
    && (forall a :: a in mem0 && a !in c ==> mem[a] == mem0[a])
    && (forall i :: 0 <= i < |c| ==> c[i] in mem0 && mem[c[i]] == news[i] && news[i] !in mem0)
    && Chained(mem, head, news)
  }
}
