/** Object graphs in nPVR/stdsoap2.cpp: a graph is traversed by soap_reference, written with
    soap_element_id, and read back with soap_id_enter and soap_id_lookup, in the mode where shared
    nodes are written in place (SOAP_XML_GRAPH, or SOAP 1.2 with an encoding style; not in a header). */
module Graphs {
  import opened Bytes
  import opened Chains

  /** One node type stands for the generated ones: its contents, and the nodes its pointers refer to. */
  datatype Node = Node(val: int, kids: seq<Addr>)

  type Heap = map<Addr, Node>

  /** What soap_element_null, soap_element_ref, soap_element_begin_out and soap_element_end_out write; an element
      without an id has id 0. A pointer is known by its place in a list here, and so the message is one in which null
      elements are written (SOAP_XML_NIL): Nil is the element with xsi:nil. */
  datatype Token = Nil | Ref(id: nat) | Begin(id: nat, val: int) | End

  ghost predicate Closed(h: Heap) {
    && NULL !in h
    && (forall p, i :: p in h && 0 <= i < |h[p].kids| ==> Points(h, h[p].kids[i]))
  }

  predicate Points(h: Heap, p: Addr) {
    p == NULL || p in h
  }

  ghost predicate AllPoint(h: Heap, ps: seq<Addr>) {
    forall i :: 0 <= i < |ps| ==> Points(h, ps[i])
  }

  ghost function SetOf(s: seq<Addr>): set<Addr> {
    set p | p in s
  }

  /** The pointers that a traversal meets, in order; a node is entered where it is met first. */
  ghost function Visits(h: Heap, p: Addr, seen: set<Addr>): (v: seq<Addr>)
    requires Closed(h) && Points(h, p)
    ensures forall q :: q in v ==> q in h
    ensures p != NULL ==> p in v
    decreases h.Keys - seen, 0, 1
  {
    if p == NULL then []
    else if p in seen then [p]
    else [p] + VisitsAll(h, h[p].kids, seen + {p})
  }

  ghost function VisitsAll(h: Heap, ps: seq<Addr>, seen: set<Addr>): (v: seq<Addr>)
    requires Closed(h) && AllPoint(h, ps)
    ensures forall q :: q in v ==> q in h
    decreases h.Keys - seen, |ps|, 0
  {
    if ps == [] then []
    else
      var v := Visits(h, ps[0], seen);
      v + VisitsAll(h, ps[1..], seen + SetOf(v))
  }

  predicate Shared(total: seq<Addr>, p: Addr) {
    multiset(total)[p] >= 2
  }

  /** Ids are positive, and no two nodes have the same. */
  ghost predicate Naming(ids: map<Addr, nat>) {
    && (forall p :: p in ids ==> ids[p] > 0)
    && (forall p, q :: p in ids && q in ids && ids[p] == ids[q] ==> p == q)
  }

  /** What soap_pointer_lookup returns: the id of a node, or 0. */
  function NameOf(ids: map<Addr, nat>, p: Addr): nat {
    if p in ids then ids[p] else 0
  }

  /** The text of a pointer whose predecessors have been written: a shared node has its id where it is
      met first, and is referred to by it everywhere else. */
  ghost function Text(h: Heap, ids: map<Addr, nat>, total: seq<Addr>, p: Addr, seen: set<Addr>): seq<Token>
    requires Closed(h) && Points(h, p)
    decreases h.Keys - seen, 0, 1
  {
    if p == NULL then [Nil]
    else if p in seen then [Ref(NameOf(ids, p))]
    else NodeText(h, ids, total, p, seen + {p})
  }

  /** The text of a node in place. */
  ghost function NodeText(h: Heap, ids: map<Addr, nat>, total: seq<Addr>, p: Addr, seen: set<Addr>): seq<Token>
    requires Closed(h) && p in h && p in seen
    decreases h.Keys - seen, |h[p].kids| + 1, 0
  {
    [Begin(if Shared(total, p) then NameOf(ids, p) else 0, h[p].val)] + TextAll(h, ids, total, h[p].kids, seen) + [End]
  }

  ghost function TextAll(h: Heap, ids: map<Addr, nat>, total: seq<Addr>, ps: seq<Addr>, seen: set<Addr>): seq<Token>
    requires Closed(h) && AllPoint(h, ps)
    decreases h.Keys - seen, |ps|, 0
  {
    if ps == [] then []
    else Text(h, ids, total, ps[0], seen) + TextAll(h, ids, total, ps[1..], seen + SetOf(Visits(h, ps[0], seen)))
  }

  /** The marks of a pointer list entry, one for the counting pass and one for the sending pass. */
  datatype Plist = Plist(id: nat, mark1: int, mark2: int)

  /** After the pointers done have been referenced. */
  ghost predicate Marked(pht: map<Addr, Plist>, idnum: nat, done: seq<Addr>) {
    && (forall p :: p in pht <==> p in done)
    && (forall p :: p in pht ==> 1 <= pht[p].id <= idnum && pht[p].mark1 == pht[p].mark2 == RefMark(done, p))
    && (forall p, q :: p in pht && q in pht && pht[p].id == pht[q].id ==> p == q)
  }

  function RefMark(done: seq<Addr>, p: Addr): int {
    if Shared(done, p) then 2 else 0
  }

  /** What the mark of the current pass is once the pointers done, out of total, have been written. */
  function OutMark(total: seq<Addr>, done: seq<Addr>, p: Addr): int {
    if !Shared(total, p) then 0 else if p in done then 1 else 2
  }

  /** The writer fields of struct soap that a graph needs; out is what has been written. */
  class Writer {
    const heap: Heap
    var pht: map<Addr, Plist>
    var idnum: nat
    var lengthMode: bool
    var out: seq<Token>

    constructor (h: Heap)
      ensures heap == h && Marked(pht, idnum, []) && idnum == 0 && lengthMode && out == []
    {
      heap, pht, idnum, lengthMode, out := h, map[], 0, true, [];
    }

    /** soap_reference */
    method Reference(p: Addr, ghost done: seq<Addr>) returns (mark: int)
      requires Marked(pht, idnum, done)
      modifies this`pht, this`idnum
      ensures p == NULL ==> mark == 1 && Marked(pht, idnum, done)
      ensures p != NULL ==> Marked(pht, idnum, done + [p]) && (mark == 0 <==> p !in done)
    {
      if p == NULL {
        return 1;
      }
      ghost var before := pht;
      if p in pht {
        MarkedAgain(pht, idnum, done, p);
        if pht[p].mark1 == 0 {
          pht := pht[p := pht[p].(mark1 := 2, mark2 := 2)];
        } else {
          assert pht == pht[p := pht[p].(mark1 := 2, mark2 := 2)];
        }
      } else {
        MarkedFirst(pht, idnum, done, p);
        idnum := idnum + 1;
        pht := pht[p := Plist(idnum, 0, 0)];
      }
      return pht[p].mark1;
    }

    /** A serializer of a pointer: a node that is new is traversed. */
    method Serialize(p: Addr, ghost done: seq<Addr>)
      requires Closed(heap) && Points(heap, p) && Marked(pht, idnum, done)
      modifies this`pht, this`idnum
      ensures Marked(pht, idnum, done + Visits(heap, p, SetOf(done)))
      decreases heap.Keys - SetOf(done), 0, 1
    {
      var mark := Reference(p, done);
      VisitsFrom(heap, p, done);
      if mark == 0 {
        SerializeAll(heap[p].kids, done + [p]);
      }
    }

    method SerializeAll(ps: seq<Addr>, ghost done: seq<Addr>)
      requires Closed(heap) && AllPoint(heap, ps) && Marked(pht, idnum, done)
      modifies this`pht, this`idnum
      ensures Marked(pht, idnum, done + VisitsAll(heap, ps, SetOf(done)))
      decreases heap.Keys - SetOf(done), |ps|, 0
    {
      VisitsAllFrom(heap, ps, done);
      if ps != [] {
        Serialize(ps[0], done);
        SerializeAll(ps[1..], done + Visits(heap, ps[0], SetOf(done)));
      }
    }

    /** The mark soap_is_embedded and soap_is_single go by. */
    function MarkNow(p: Addr): int
      requires p in pht
      reads this
    {
      MarkIn(pht[p], lengthMode)
    }

    /** soap_set_embedded */
    method SetEmbedded(p: Addr)
      requires p in pht
      modifies this`pht
      ensures pht == old(pht)[p := Embedded(old(pht)[p], lengthMode)]
    {
      pht := pht[p := if lengthMode then pht[p].(mark1 := 1) else pht[p].(mark2 := 1)];
    }

    /** soap_element_id for a pointer that has no id yet */
    method ElementId(p: Addr, ghost total: seq<Addr>, ghost done: seq<Addr>) returns (id: int)
      requires Printing(pht, lengthMode, total, done) && (p != NULL ==> done + [p] <= total)
      modifies this`pht, this`out
      ensures p == NULL ==> id == -1 && out == old(out) + [Nil] && pht == old(pht)
      ensures p != NULL && p in done ==> id == -1 && out == old(out) + [Ref(NameOf(Ids(pht), p))] && pht == old(pht)
      ensures p != NULL && p !in done ==>
                id == (if Shared(total, p) then NameOf(Ids(old(pht)), p) else 0) && out == old(out)
      ensures p != NULL ==> Printing(pht, lengthMode, total, done + [p])
      ensures SameButMark(old(pht), pht, lengthMode)
    {
      if p == NULL {
        out := out + [Nil];
        return -1;
      }
      MetAgain(total, done, p);
      id := if p in pht then pht[p].id else 0;
      if id != 0 {
        if MarkNow(p) == 1 {
          out := out + [Ref(id)];
          return -1;
        }
        if MarkNow(p) == 0 {
          return 0;
        }
        SetEmbedded(p);
      }
    }

    /** soap_embedded_id */
    method EmbeddedId(id: nat, p: Addr) returns (r: nat)
      modifies this`pht
      ensures id > 0 && p in old(pht) ==> r == id && pht == old(pht)[p := Embedded(old(pht)[p], lengthMode)]
      ensures id > 0 && p !in old(pht) ==> r == 0 && pht == old(pht)
      ensures id == 0 ==> r == 0 && pht == old(pht)
    {
      if id > 0 && p !in pht {
        return 0;
      }
      if id > 0 {
        SetEmbedded(p);
      }
      return id;
    }

    /** The writer of a pointer. */
    method Write(p: Addr, ghost total: seq<Addr>, ghost done: seq<Addr>)
      requires Closed(heap) && Points(heap, p) && Printing(pht, lengthMode, total, done)
      requires done + Visits(heap, p, SetOf(done)) <= total
      modifies this`pht, this`out
      ensures Printing(pht, lengthMode, total, done + Visits(heap, p, SetOf(done)))
      ensures SameButMark(old(pht), pht, lengthMode)
      ensures out == old(out) + Text(heap, Ids(old(pht)), total, p, SetOf(done))
      decreases heap.Keys - SetOf(done), 0, 1
    {
      VisitsFrom(heap, p, done);
      var id := ElementId(p, total, done);
      if id >= 0 {
        SameIds(old(pht), pht, lengthMode);
        WriteNode(id, p, total, done);
      }
    }

    /** The writer of a node that has not been written. */
    method WriteNode(id: nat, p: Addr, ghost total: seq<Addr>, ghost done: seq<Addr>)
      requires Closed(heap) && p in heap && p !in done && Printing(pht, lengthMode, total, done + [p])
      requires (done + [p]) + VisitsAll(heap, heap[p].kids, SetOf(done + [p])) <= total
      requires id == (if Shared(total, p) then NameOf(Ids(pht), p) else 0)
      modifies this`pht, this`out
      ensures Printing(pht, lengthMode, total, (done + [p]) + VisitsAll(heap, heap[p].kids, SetOf(done + [p])))
      ensures SameButMark(old(pht), pht, lengthMode)
      ensures out == old(out) + NodeText(heap, Ids(old(pht)), total, p, SetOf(done + [p]))
      decreases heap.Keys - SetOf(done), 0, 0
    {
      MetOnce(total, done, p, VisitsAll(heap, heap[p].kids, SetOf(done + [p])));
      VisitsFrom(heap, p, done);
      var name := EmbeddedId(id, p);
      SameIds(old(pht), pht, lengthMode);
      ghost var text := TextAll(heap, Ids(pht), total, heap[p].kids, SetOf(done + [p]));
      out := out + [Begin(name, heap[p].val)];
      WriteAll(heap[p].kids, total, done + [p]);
      out := out + [End];
      Wrapped(old(out), Begin(name, heap[p].val), text);
    }

    method WriteAll(ps: seq<Addr>, ghost total: seq<Addr>, ghost done: seq<Addr>)
      requires Closed(heap) && AllPoint(heap, ps) && Printing(pht, lengthMode, total, done)
      requires done + VisitsAll(heap, ps, SetOf(done)) <= total
      modifies this`pht, this`out
      ensures Printing(pht, lengthMode, total, done + VisitsAll(heap, ps, SetOf(done)))
      ensures SameButMark(old(pht), pht, lengthMode)
      ensures out == old(out) + TextAll(heap, Ids(old(pht)), total, ps, SetOf(done))
      decreases heap.Keys - SetOf(done), |ps|, 0
    {
      VisitsAllFrom(heap, ps, done);
      if ps != [] {
        ghost var v := Visits(heap, ps[0], SetOf(done));
        Write(ps[0], total, done);
        SameIds(old(pht), pht, lengthMode);
        WriteAll(ps[1..], total, done + v);
        TextAllFrom(heap, Ids(old(pht)), total, ps, done, old(out), []);
      }
    }
  }

  function MarkIn(e: Plist, lengthMode: bool): int {
    if lengthMode then e.mark1 else e.mark2
  }

  function Embedded(e: Plist, lengthMode: bool): Plist {
    if lengthMode then e.(mark1 := 1) else e.(mark2 := 1)
  }

  function Ids(pht: map<Addr, Plist>): map<Addr, nat> {
    map p | p in pht :: pht[p].id
  }

  /** When the pointers done, out of total, have been written in the current pass. */
  ghost predicate Printing(pht: map<Addr, Plist>, lengthMode: bool, total: seq<Addr>, done: seq<Addr>) {
    && (forall p :: p in pht <==> p in total)
    && (forall p :: p in pht ==> pht[p].id > 0 && MarkIn(pht[p], lengthMode) == OutMark(total, done, p))
  }

  /** Only marks of the current pass have changed. */
  ghost predicate SameButMark(pht0: map<Addr, Plist>, pht: map<Addr, Plist>, lengthMode: bool) {
    && pht0.Keys == pht.Keys
    && (forall p :: p in pht ==> pht[p].id == pht0[p].id && MarkIn(pht[p], !lengthMode) == MarkIn(pht0[p], !lengthMode))
  }

  lemma SameIds(pht0: map<Addr, Plist>, pht: map<Addr, Plist>, lengthMode: bool)
    requires SameButMark(pht0, pht, lengthMode)
    ensures Ids(pht) == Ids(pht0)
  {
  }

  lemma VisitsFrom(h: Heap, p: Addr, done: seq<Addr>)
    requires Closed(h) && Points(h, p)
    ensures
      var v := Visits(h, p, SetOf(done));
      && (p == NULL ==> done + v == done)
      && (p != NULL && p in done ==> done + v == done + [p])
      && (p != NULL && p !in done ==>
            && SetOf(done + [p]) == SetOf(done) + {p} && h.Keys - SetOf(done + [p]) < h.Keys - SetOf(done)
            && done + v == (done + [p]) + VisitsAll(h, h[p].kids, SetOf(done + [p])))
  {
    assert SetOf(done + [p]) == SetOf(done) + {p};
    if p != NULL && p !in done {
      assert p in h.Keys - SetOf(done);
      var rest := VisitsAll(h, h[p].kids, SetOf(done) + {p});
      assert done + ([p] + rest) == (done + [p]) + rest;
    }
  }

  /** Once everything has been referenced, either pass can start. */
  lemma ReadyToPrint(pht: map<Addr, Plist>, idnum: nat, total: seq<Addr>)
    requires Marked(pht, idnum, total)
    ensures Printing(pht, true, total, []) && Printing(pht, false, total, [])
    ensures Naming(Ids(pht)) && forall p :: p in total ==> p in Ids(pht)
  {
  }

  lemma Wrapped(before: seq<Token>, b: Token, text: seq<Token>)
    ensures ((before + [b]) + text) + [End] == before + ([b] + text + [End])
  {
  }

  /** The text of several pointers: that of the first, and that of the others once it has been written. */
  lemma TextAllFrom(
      h: Heap, ids: map<Addr, nat>, total: seq<Addr>, ps: seq<Addr>, done: seq<Addr>, before: seq<Token>, rest: seq<Token>)
    requires Closed(h) && AllPoint(h, ps) && ps != [] && AllPoint(h, ps[1..])
    ensures
      var first := Text(h, ids, total, ps[0], SetOf(done));
      var others := TextAll(h, ids, total, ps[1..], SetOf(done + Visits(h, ps[0], SetOf(done))));
      && before + TextAll(h, ids, total, ps, SetOf(done)) == (before + first) + others
      && TextAll(h, ids, total, ps, SetOf(done)) + rest == first + (others + rest)
  {
    SeenMore(h, done, Visits(h, ps[0], SetOf(done)));
    var first := Text(h, ids, total, ps[0], SetOf(done));
    var others := TextAll(h, ids, total, ps[1..], SetOf(done + Visits(h, ps[0], SetOf(done))));
    Regroup(before, first, others);
    Regroup(first, others, rest);
  }

  lemma MetOnce(total: seq<Addr>, done: seq<Addr>, p: Addr, v: seq<Addr>)
    requires (done + [p]) + v <= total
    ensures p in total
  {
    assert ((done + [p]) + v)[|done|] == p;
    assert total[|done|] == p;
  }

  lemma SeenMore(h: Heap, done: seq<Addr>, w: seq<Addr>)
    ensures SetOf(done + w) == SetOf(done) + SetOf(w)
    ensures h.Keys - SetOf(done + w) <= h.Keys - SetOf(done)
  {
  }

  lemma VisitsAllFrom(h: Heap, ps: seq<Addr>, done: seq<Addr>)
    requires Closed(h) && AllPoint(h, ps)
    ensures ps == [] ==> done + VisitsAll(h, ps, SetOf(done)) == done
    ensures ps != [] ==>
              var w := Visits(h, ps[0], SetOf(done));
              && AllPoint(h, ps[1..]) && SetOf(done + w) == SetOf(done) + SetOf(w)
              && h.Keys - SetOf(done + w) <= h.Keys - SetOf(done)
              && done + VisitsAll(h, ps, SetOf(done)) == (done + w) + VisitsAll(h, ps[1..], SetOf(done + w))
  {
    if ps != [] {
      var w := Visits(h, ps[0], SetOf(done));
      SeenMore(h, done, w);
      Regroup(done, w, VisitsAll(h, ps[1..], SetOf(done + w)));
    }
  }

  lemma MarkedAgain(pht: map<Addr, Plist>, idnum: nat, done: seq<Addr>, p: Addr)
    requires Marked(pht, idnum, done) && p in pht
    ensures p in done && Marked(pht[p := pht[p].(mark1 := 2, mark2 := 2)], idnum, done + [p])
    ensures pht[p].mark1 == 0 || pht[p] == pht[p].(mark1 := 2, mark2 := 2)
  {
    Counted(done, p);
  }

  lemma MarkedFirst(pht: map<Addr, Plist>, idnum: nat, done: seq<Addr>, p: Addr)
    requires Marked(pht, idnum, done) && p !in pht
    ensures p !in done && Marked(pht[p := Plist(idnum + 1, 0, 0)], idnum + 1, done + [p])
  {
    Counted(done, p);
  }

  /** A pointer met again is shared. */
  lemma MetAgain(total: seq<Addr>, done: seq<Addr>, p: Addr)
    requires done + [p] <= total
    ensures p in total && (p in done ==> Shared(total, p))
  {
    Counted(done, p);
    assert total == (done + [p]) + total[|done| + 1..];
    assert multiset(total) == multiset(done + [p]) + multiset(total[|done| + 1..]);
    assert p in done + [p];
  }

  lemma Counted(done: seq<Addr>, p: Addr)
    ensures forall q :: multiset(done + [p])[q] == multiset(done)[q] + (if q == p then 1 else 0)
    ensures forall q :: q in done + [p] <==> q in done || q == p
    ensures forall q :: q in done <==> multiset(done)[q] >= 1
  {
    assert multiset(done + [p]) == multiset(done) + multiset([p]);
    forall q
      ensures q in done <==> multiset(done)[q] >= 1
    {
      assert q in done <==> q in multiset(done);
    }
  }
}

/** Reading a graph back. */
module GraphReader {
  import opened Bytes
  import opened Chains
  import opened Graphs

  /** What has been built so far, the ids met, the next free address, and the tokens still to be read. */
  datatype Reading = Reading(heap: Heap, iht: map<nat, Addr>, next: Addr, input: seq<Token>)

  datatype Outcome<T> = Got(value: T, st: Reading) | Failed

  /** soap_id_enter for a node that is read into fresh memory; an id of 0 stands for none. */
  function EnterId(st: Reading, id: nat, val: int): Reading {
    st.(heap := st.heap[st.next := Node(val, [])],
        iht := if id == 0 then st.iht else st.iht[id := st.next],
        next := st.next + 1, input := if st.input == [] then [] else st.input[1..])
  }

  /** A pointer. An href must be to an id that has been met: forward references are not part of this text. */
  function ReadOne(st: Reading): (o: Outcome<Addr>)
    ensures o.Got? ==> |o.st.input| < |st.input|
    decreases |st.input|, 0
  {
    if st.input == [] then Failed
    else
      match st.input[0]
      case End => Failed
      case Nil => Got(NULL, st.(input := st.input[1..]))
      case Ref(id) => if id in st.iht then Got(st.iht[id], st.(input := st.input[1..])) else Failed
      case Begin(id, val) =>
        if id in st.iht then Failed
        else
          match ReadMany(EnterId(st, id, val))
          case Failed => Failed
          case Got(kids, st') => Got(st.next, st'.(heap := st'.heap[st.next := Node(val, kids)]))
  }

  /** Pointers up to an end tag, which is read too. */
  function ReadMany(st: Reading): (o: Outcome<seq<Addr>>)
    ensures o.Got? ==> |o.st.input| < |st.input|
    decreases |st.input|, 1
  {
    if st.input == [] then Failed
    else if st.input[0] == End then Got([], st.(input := st.input[1..]))
    else
      match ReadOne(st)
      case Failed => Failed
      case Got(p, st') =>
        match ReadMany(st')
        case Failed => Failed
        case Got(ps, st'') => Got([p] + ps, st'')
  }

  /** The image of a pointer. */
  function Image(f: map<Addr, Addr>, p: Addr): Addr {
    if p in f then f[p] else NULL
  }

  function ImageAll(f: map<Addr, Addr>, ps: seq<Addr>): (r: seq<Addr>)
    ensures |r| == |ps|
    ensures forall i :: 0 <= i < |ps| ==> r[i] == Image(f, ps[i])
  {
    if ps == [] then [] else [Image(f, ps[0])] + ImageAll(f, ps[1..])
  }

  /** Every pointer of ps is null or has an image. */
  predicate Within(f: map<Addr, Addr>, ps: seq<Addr>) {
    ps == [] || ((ps[0] == NULL || ps[0] in f) && Within(f, ps[1..]))
  }

  /** The node p and its copy: same contents, and pointers to the copies of the nodes p points to. */
  ghost predicate Copied(g: Heap, f: map<Addr, Addr>, heap: Heap, p: Addr) {
    && p in g && p in f && f[p] in heap && heap[f[p]] == Node(g[p].val, ImageAll(f, g[p].kids))
    && Within(f, g[p].kids)
  }

  /** f takes the nodes seen to their copies, each at its own address, which the id of a shared node leads to. */
  ghost predicate Placed(ids: map<Addr, nat>, total: seq<Addr>, seen: set<Addr>, f: map<Addr, Addr>, st: Reading) {
    && f.Keys == seen && NULL !in seen && 0 < st.next
    && (forall p :: p in f ==> 0 < f[p] < st.next)
    && (forall p, q :: p in f && q in f && f[p] == f[q] ==> p == q)
    && (forall p :: p in f && Shared(total, p) ==> p in ids && ids[p] in st.iht && st.iht[ids[p]] == f[p])
    && (forall k :: k in st.iht ==> k != 0 && exists p :: p in f && p in ids && ids[p] == k && st.iht[k] == f[p])
  }

  /** The nodes of whole have been read entirely. */
  ghost predicate Whole(g: Heap, whole: set<Addr>, f: map<Addr, Addr>, heap: Heap) {
    forall p :: p in whole ==> Copied(g, f, heap, p)
  }

  ghost predicate Mirror(
      g: Heap, ids: map<Addr, nat>, total: seq<Addr>, seen: set<Addr>, whole: set<Addr>, f: map<Addr, Addr>, st: Reading) {
    Placed(ids, total, seen, f, st) && Whole(g, whole, f, st.heap) && whole <= seen
  }

  ghost predicate Extends(f: map<Addr, Addr>, f': map<Addr, Addr>) {
    forall p :: p in f ==> p in f' && f'[p] == f[p]
  }

  lemma {:induction false} ImageKept(f: map<Addr, Addr>, f': map<Addr, Addr>, ps: seq<Addr>)
    requires Extends(f, f') && NULL !in f'
    requires Within(f, ps)
    ensures ImageAll(f', ps) == ImageAll(f, ps) && Within(f', ps)
  {
    if ps != [] {
      ImageKept(f, f', ps[1..]);
    }
  }

  lemma PlacedEnter(
      ids: map<Addr, nat>, total: seq<Addr>, seen: set<Addr>, f: map<Addr, Addr>, st: Reading,
      p: Addr, id: nat, val: int)
    requires Placed(ids, total, seen, f, st) && Naming(ids) && p != NULL && p !in seen && p in ids
    requires id == (if Shared(total, p) then ids[p] else 0)
    ensures id !in st.iht
    ensures Placed(ids, total, seen + {p}, f[p := st.next], EnterId(st, id, val))
  {
    assert forall q :: q in f && q in ids ==> ids[q] != ids[p];
  }

  lemma WholeKept(g: Heap, whole: set<Addr>, f: map<Addr, Addr>, f': map<Addr, Addr>, heap: Heap, heap': Heap)
    requires Whole(g, whole, f, heap) && Extends(f, f') && NULL !in f'
    requires forall p :: p in whole && p in f ==> f[p] in heap' && (f[p] in heap ==> heap'[f[p]] == heap[f[p]])
    ensures Whole(g, whole, f', heap')
  {
    forall p | p in whole
      ensures Copied(g, f', heap', p)
    {
      assert Copied(g, f, heap, p);
      ImageKept(f, f', g[p].kids);
    }
  }

  /** Reading the start of a node that has not been seen. */
  lemma MirrorEnter(
      g: Heap, ids: map<Addr, nat>, total: seq<Addr>, seen: set<Addr>, whole: set<Addr>, f: map<Addr, Addr>, st: Reading,
      p: Addr, id: nat, val: int)
    requires Mirror(g, ids, total, seen, whole, f, st) && Naming(ids) && p != NULL && p !in seen && p in ids
    requires id == (if Shared(total, p) then ids[p] else 0)
    ensures id !in st.iht
    ensures Mirror(g, ids, total, seen + {p}, whole, f[p := st.next], EnterId(st, id, val))
  {
    PlacedEnter(ids, total, seen, f, st, p, id, val);
    WholeKept(g, whole, f, f[p := st.next], st.heap, EnterId(st, id, val).heap) by {
      assert forall q :: q in whole ==> Copied(g, f, st.heap, q);
    }
  }

  /** Reading the end of a node: its copy is complete. */
  lemma MirrorLeave(
      g: Heap, ids: map<Addr, nat>, total: seq<Addr>, seen: set<Addr>, whole: set<Addr>, f: map<Addr, Addr>, st: Reading,
      p: Addr)
    requires Mirror(g, ids, total, seen, whole, f, st) && p in g && p in seen && p !in whole
    requires Within(f, g[p].kids)
    ensures
      var st' := st.(heap := st.heap[f[p] := Node(g[p].val, ImageAll(f, g[p].kids))]);
      Mirror(g, ids, total, seen, whole + {p}, f, st')
  {
    var heap' := st.heap[f[p] := Node(g[p].val, ImageAll(f, g[p].kids))];
    assert forall q :: q in whole ==> Copied(g, f, st.heap, q);
    WholeKept(g, whole, f, f, st.heap, heap');
    assert Copied(g, f, heap', p);
  }

  ghost predicate Fits(g: Heap, ids: map<Addr, nat>, total: seq<Addr>, done: seq<Addr>, v: seq<Addr>) {
    && Closed(g) && Naming(ids) && done + v <= total
    && (forall p :: p in total ==> p in ids)
  }

  /** The text of a pointer is read as the copy of the pointer. */
  lemma {:induction false} TextIsRead(
      g: Heap, ids: map<Addr, nat>, total: seq<Addr>, p: Addr, done: seq<Addr>, whole: set<Addr>,
      f: map<Addr, Addr>, st: Reading, rest: seq<Token>)
    returns (f': map<Addr, Addr>, st': Reading)
    requires Closed(g) && Points(g, p) && Fits(g, ids, total, done, Visits(g, p, SetOf(done)))
    requires Mirror(g, ids, total, SetOf(done), whole, f, st)
    requires st.input == Text(g, ids, total, p, SetOf(done)) + rest
    ensures ReadOne(st) == Got(Image(f', p), st') && st'.input == rest && Extends(f, f') && (p == NULL || p in f')
    ensures
      var v := Visits(g, p, SetOf(done));
      Mirror(g, ids, total, SetOf(done + v), whole + (SetOf(v) - SetOf(done)), f', st')
    decreases g.Keys - SetOf(done), 0, 1
  {
    var seen := SetOf(done);
    VisitsFrom(g, p, done);
    if p == NULL {
      f', st' := f, st.(input := rest);
      assert SetOf([]) - SetOf(done) == {};
    } else if p in done {
      f', st' := f, st.(input := rest);
      MetAgain(total, done, p);
      assert SetOf([p]) - SetOf(done) == {};
      assert SetOf(done + [p]) == SetOf(done);
    } else {
      MetOnce(total, done, p, VisitsAll(g, g[p].kids, SetOf(done + [p])));
      var id := if Shared(total, p) then ids[p] else 0;
      var kids := g[p].kids;
      MirrorEnter(g, ids, total, seen, whole, f, st, p, id, g[p].val);
      var st1 := EnterId(st, id, g[p].val);
      AfterBegin(Begin(id, g[p].val), TextAll(g, ids, total, kids, SetOf(done + [p])), rest);
      var st2;
      f', st2 := TextsAreRead(g, ids, total, kids, done + [p], whole, f[p := st.next], st1, rest);
      var v := VisitsAll(g, kids, SetOf(done + [p]));
      var whole2 := whole + (SetOf(v) - SetOf(done + [p]));
      MirrorLeave(g, ids, total, SetOf((done + [p]) + v), whole2, f', st2, p);
      st' := st2.(heap := st2.heap[f'[p] := Node(g[p].val, ImageAll(f', kids))]);
      WholeWithNode(whole, done, p, v);
      Regroup(done, [p], v);
    }
  }

  lemma {:induction false} TextsAreRead(
      g: Heap, ids: map<Addr, nat>, total: seq<Addr>, ps: seq<Addr>, done: seq<Addr>, whole: set<Addr>,
      f: map<Addr, Addr>, st: Reading, rest: seq<Token>)
    returns (f': map<Addr, Addr>, st': Reading)
    requires Closed(g) && AllPoint(g, ps) && Fits(g, ids, total, done, VisitsAll(g, ps, SetOf(done)))
    requires Mirror(g, ids, total, SetOf(done), whole, f, st)
    requires st.input == TextAll(g, ids, total, ps, SetOf(done)) + ([End] + rest)
    ensures ReadMany(st) == Got(ImageAll(f', ps), st') && st'.input == rest && Extends(f, f')
    ensures Within(f', ps)
    ensures
      var v := VisitsAll(g, ps, SetOf(done));
      Mirror(g, ids, total, SetOf(done + v), whole + (SetOf(v) - SetOf(done)), f', st')
    decreases g.Keys - SetOf(done), |ps|, 0
  {
    VisitsAllFrom(g, ps, done);
    if ps == [] {
      f', st' := f, st.(input := rest);
      NothingSeen(done, whole);
    } else {
      var v := Visits(g, ps[0], SetOf(done));
      var vs := VisitsAll(g, ps[1..], SetOf(done + v));
      var whole1 := whole + (SetOf(v) - SetOf(done));
      var f1, st1 := FirstIsRead(g, ids, total, ps, done, whole, f, st, rest);
      f', st' := TextsAreRead(g, ids, total, ps[1..], done + v, whole1, f1, st1, rest);
      ReadManyStep(st, st1);
      FirstImage(f1, f', ps);
      WholeWithAll(whole, done, v, vs);
      Regroup(done, v, vs);
    }
  }

  lemma {:induction false} FirstIsRead(
      g: Heap, ids: map<Addr, nat>, total: seq<Addr>, ps: seq<Addr>, done: seq<Addr>, whole: set<Addr>,
      f: map<Addr, Addr>, st: Reading, rest: seq<Token>)
    returns (f1: map<Addr, Addr>, st1: Reading)
    requires Closed(g) && AllPoint(g, ps) && ps != [] && AllPoint(g, ps[1..])
    requires Fits(g, ids, total, done, VisitsAll(g, ps, SetOf(done)))
    requires Mirror(g, ids, total, SetOf(done), whole, f, st)
    requires st.input == TextAll(g, ids, total, ps, SetOf(done)) + ([End] + rest)
    ensures st.input != [] && st.input[0] != End
    ensures ReadOne(st) == Got(Image(f1, ps[0]), st1) && Extends(f, f1) && (ps[0] == NULL || ps[0] in f1)
    ensures
      var v := Visits(g, ps[0], SetOf(done));
      && Mirror(g, ids, total, SetOf(done + v), whole + (SetOf(v) - SetOf(done)), f1, st1)
      && st1.input == TextAll(g, ids, total, ps[1..], SetOf(done + v)) + ([End] + rest)
      && Fits(g, ids, total, done + v, VisitsAll(g, ps[1..], SetOf(done + v)))
    decreases g.Keys - SetOf(done), 0, 2
  {
    var v := Visits(g, ps[0], SetOf(done));
    var more := TextAll(g, ids, total, ps[1..], SetOf(done + v)) + ([End] + rest);
    TextAllFrom(g, ids, total, ps, done, [], [End] + rest);
    SeenMore(g, done, v);
    FirstFits(g, ids, total, done, v, VisitsAll(g, ps[1..], SetOf(done + v)));
    FirstToken(g, ids, total, ps[0], SetOf(done), more);
    f1, st1 := TextIsRead(g, ids, total, ps[0], done, whole, f, st, more);
  }

  lemma NothingSeen(done: seq<Addr>, whole: set<Addr>)
    ensures SetOf(done + []) == SetOf(done) && whole + (SetOf([]) - SetOf(done)) == whole
  {
    assert done + [] == done;
  }

  lemma ReadManyStep(st: Reading, st1: Reading)
    requires st.input != [] && st.input[0] != End && ReadOne(st).Got? && ReadOne(st).st == st1 && ReadMany(st1).Got?
    ensures ReadMany(st) == Got([ReadOne(st).value] + ReadMany(st1).value, ReadMany(st1).st)
  {
  }

  lemma FirstImage(f: map<Addr, Addr>, f': map<Addr, Addr>, ps: seq<Addr>)
    requires ps != [] && Extends(f, f') && (ps[0] == NULL || ps[0] in f) && NULL !in f && NULL !in f'
    ensures ImageAll(f', ps) == [Image(f, ps[0])] + ImageAll(f', ps[1..])
  {
  }

  lemma AfterBegin(b: Token, text: seq<Token>, rest: seq<Token>)
    ensures
      var input := ([b] + text + [End]) + rest;
      input[0] == b && input[1..] == text + ([End] + rest)
  {
  }

  lemma WholeWithNode(whole: set<Addr>, done: seq<Addr>, p: Addr, v: seq<Addr>)
    requires p !in done
    ensures whole + (SetOf(v) - SetOf(done + [p])) + {p} == whole + (SetOf([p] + v) - SetOf(done))
  {
  }

  lemma WholeWithAll(whole: set<Addr>, done: seq<Addr>, v: seq<Addr>, vs: seq<Addr>)
    ensures whole + (SetOf(v) - SetOf(done)) + (SetOf(vs) - SetOf(done + v)) == whole + (SetOf(v + vs) - SetOf(done))
  {
  }

  lemma FirstToken(g: Heap, ids: map<Addr, nat>, total: seq<Addr>, p: Addr, seen: set<Addr>, rest: seq<Token>)
    requires Closed(g) && Points(g, p)
    ensures
      var t := Text(g, ids, total, p, seen) + rest;
      t != [] && t[0] != End
  {
  }

  lemma FirstFits(g: Heap, ids: map<Addr, nat>, total: seq<Addr>, done: seq<Addr>, v: seq<Addr>, vs: seq<Addr>)
    requires Fits(g, ids, total, done, v + vs)
    ensures Fits(g, ids, total, done, v) && Fits(g, ids, total, done + v, vs)
  {
    assert done + (v + vs) == (done + v) + vs;
  }

  /** The reader fields of struct soap that a graph needs. */
  class Reader {
    var heap: Heap
    var iht: map<nat, Addr>
    var next: Addr
    var input: seq<Token>

    ghost function Now(): Reading
      reads this
    {
      Reading(heap, iht, next, input)
    }

    constructor (tokens: seq<Token>)
      ensures Now() == Reading(map[], map[], 1, tokens)
    {
      heap, iht, next, input := map[], map[], 1, tokens;
    }

    /** The reader of a pointer. */
    method In() returns (ok: bool, p: Addr)
      modifies this
      ensures ok == ReadOne(old(Now())).Got?
      ensures ok ==> ReadOne(old(Now())) == Got(p, Now())
      decreases |input|, 0
    {
      if input == [] || input[0] == End {
        return false, NULL;
      }
      var token := input[0];
      if token == Nil {
        input := input[1..];
        return true, NULL;
      }
      if token.Ref? {
        if token.id !in iht {
          return false, NULL;
        }
        input := input[1..];
        return true, iht[token.id];
      }
      if token.id in iht {
        return false, NULL;
      }
      p := next;
      heap, next, input := heap[p := Node(token.val, [])], next + 1, input[1..];
      if token.id != 0 {
        iht := iht[token.id := p];
      }
      var kids;
      ok, kids := InAll();
      if ok {
        heap := heap[p := Node(token.val, kids)];
      }
    }

    method InAll() returns (ok: bool, ps: seq<Addr>)
      modifies this
      ensures ok == ReadMany(old(Now())).Got?
      ensures ok ==> ReadMany(old(Now())) == Got(ps, Now())
      decreases |input|, 1
    {
      if input == [] {
        return false, [];
      }
      if input[0] == End {
        input := input[1..];
        return true, [];
      }
      var p;
      ok, p := In();
      if ok {
        ok, ps := InAll();
        ps := [p] + ps;
      } else {
        ps := [];
      }
    }
  }

  /** f is a one-to-one map from the nodes reached to nodes of the copy with the same contents and pointers. */
  ghost predicate Isomorphic(h: Heap, roots: seq<Addr>, f: map<Addr, Addr>, copy: Heap, images: seq<Addr>)
    requires Closed(h) && AllPoint(h, roots)
  {
    && f.Keys == SetOf(VisitsAll(h, roots, {})) && NULL !in f.Values
    && (forall p, q :: p in f && q in f && f[p] == f[q] ==> p == q)
    && (forall p :: p in f ==> Copied(h, f, copy, p))
    && images == ImageAll(f, roots) && Within(f, roots)
  }

  /** The node q is in the text in place once, where it is visited first, and referred to at all other visits. */
  ghost predicate WrittenOnce(h: Heap, ids: map<Addr, nat>, q: Addr, seen: set<Addr>, text: seq<Token>, v: seq<Addr>)
    requires q in h && q in ids
  {
    && multiset(text)[Begin(ids[q], h[q].val)] == (if q in v && q !in seen then 1 else 0)
    && multiset(text)[Ref(ids[q])] == multiset(v)[q] - (if q in v && q !in seen then 1 else 0)
  }

  lemma NodeOnce(
      h: Heap, ids: map<Addr, nat>, q: Addr, seen: set<Addr>, p: Addr, b: Token, kids: seq<Token>, vs: seq<Addr>)
    requires q in h && q in ids && p !in seen && b.Begin? && (b == Begin(ids[q], h[q].val) <==> p == q)
    requires WrittenOnce(h, ids, q, seen + {p}, kids, vs)
    ensures WrittenOnce(h, ids, q, seen, [b] + kids + [End], [p] + vs)
  {
    assert multiset([b] + kids + [End]) == multiset{b} + multiset(kids) + multiset{End};
    assert multiset([p] + vs) == multiset{p} + multiset(vs);
    assert q in vs <==> multiset(vs)[q] >= 1;
  }

  lemma BothOnce(
      h: Heap, ids: map<Addr, nat>, q: Addr, seen: set<Addr>, a: seq<Token>, v: seq<Addr>, b: seq<Token>, vs: seq<Addr>)
    requires q in h && q in ids
    requires WrittenOnce(h, ids, q, seen, a, v) && WrittenOnce(h, ids, q, seen + SetOf(v), b, vs)
    ensures WrittenOnce(h, ids, q, seen, a + b, v + vs)
  {
    assert multiset(a + b) == multiset(a) + multiset(b) && multiset(v + vs) == multiset(v) + multiset(vs);
  }

  /** A shared node is written in place once, and referred to wherever else it is met. */
  lemma {:induction false} SharedOnce(
      h: Heap, ids: map<Addr, nat>, total: seq<Addr>, p: Addr, seen: set<Addr>, q: Addr)
    requires Closed(h) && Points(h, p) && Naming(ids) && q in h && q in ids && Shared(total, q)
    ensures WrittenOnce(h, ids, q, seen, Text(h, ids, total, p, seen), Visits(h, p, seen))
    decreases h.Keys - seen, 0, 1
  {
    if p == NULL {
    } else if p in seen {
    } else {
      var b := Begin(if Shared(total, p) then NameOf(ids, p) else 0, h[p].val);
      SharedOnceInAll(h, ids, total, h[p].kids, seen + {p}, q);
      NodeOnce(h, ids, q, seen, p, b, TextAll(h, ids, total, h[p].kids, seen + {p}), VisitsAll(h, h[p].kids, seen + {p}));
    }
  }

  lemma {:induction false} SharedOnceInAll(
      h: Heap, ids: map<Addr, nat>, total: seq<Addr>, ps: seq<Addr>, seen: set<Addr>, q: Addr)
    requires Closed(h) && AllPoint(h, ps) && Naming(ids) && q in h && q in ids && Shared(total, q)
    ensures WrittenOnce(h, ids, q, seen, TextAll(h, ids, total, ps, seen), VisitsAll(h, ps, seen))
    decreases h.Keys - seen, |ps|, 0
  {
    if ps != [] {
      var v := Visits(h, ps[0], seen);
      SharedOnce(h, ids, total, ps[0], seen, q);
      SharedOnceInAll(h, ids, total, ps[1..], seen + SetOf(v), q);
      BothOnce(h, ids, q, seen, Text(h, ids, total, ps[0], seen), v,
               TextAll(h, ids, total, ps[1..], seen + SetOf(v)), VisitsAll(h, ps[1..], seen + SetOf(v)));
    }
  }

  lemma SecondPass(pht0: map<Addr, Plist>, pht: map<Addr, Plist>, total: seq<Addr>)
    requires Printing(pht0, false, total, []) && SameButMark(pht0, pht, true)
    ensures Printing(pht, false, total, []) && Ids(pht) == Ids(pht0)
  {
  }

  lemma FromNothing(total: seq<Addr>)
    ensures SetOf([]) == {} && [] + total == total
  {
  }

  /** The counting pass and the sending pass over a graph write the same text. */
  method WriteTwice(h: Heap, roots: seq<Addr>)
    returns (counted: seq<Token>, sent: seq<Token>, ghost ids: map<Addr, nat>)
    requires Closed(h) && AllPoint(h, roots)
    ensures Naming(ids) && forall p :: p in VisitsAll(h, roots, {}) ==> p in ids
    ensures counted == sent == TextAll(h, ids, VisitsAll(h, roots, {}), roots, {})
  {
    ghost var total := VisitsAll(h, roots, {});
    FromNothing(total);
    var writer := new Writer(h);
    writer.SerializeAll(roots, []);
    ReadyToPrint(writer.pht, writer.idnum, total);
    ghost var pht := writer.pht;
    ids := Ids(pht);
    writer.lengthMode := true;
    writer.WriteAll(roots, total, []);
    counted := writer.out;
    SecondPass(pht, writer.pht, total);
    writer.lengthMode, writer.out := false, [];
    writer.WriteAll(roots, total, []);
    sent := writer.out;
  }

  method ReadBack(h: Heap, roots: seq<Addr>, ghost ids: map<Addr, nat>, text: seq<Token>)
    returns (copy: Heap, images: seq<Addr>, ghost f: map<Addr, Addr>)
    requires Closed(h) && AllPoint(h, roots)
    requires Naming(ids) && forall p :: p in VisitsAll(h, roots, {}) ==> p in ids
    requires text == TextAll(h, ids, VisitsAll(h, roots, {}), roots, {})
    ensures Isomorphic(h, roots, f, copy, images)
  {
    ghost var total := VisitsAll(h, roots, {});
    FromNothing(total);
    var reader := new Reader(text + [End]);
    ghost var st;
    assert [End] + [] == [End];
    f, st := TextsAreRead(h, ids, total, roots, [], {}, map[], reader.Now(), []);
    var ok;
    ok, images := reader.InAll();
    copy := reader.heap;
    WholeIsIsomorphic(h, ids, roots, f, st, images);
  }

  lemma WholeIsIsomorphic(
      h: Heap, ids: map<Addr, nat>, roots: seq<Addr>, f: map<Addr, Addr>, st: Reading, images: seq<Addr>)
    requires Closed(h) && AllPoint(h, roots)
    requires
      var total := VisitsAll(h, roots, {});
      Mirror(h, ids, total, SetOf([] + total), {} + (SetOf(total) - SetOf([])), f, st)
    requires images == ImageAll(f, roots) && Within(f, roots)
    ensures Isomorphic(h, roots, f, st.heap, images)
  {
    var total := VisitsAll(h, roots, {});
    FromNothing(total);
    assert {} + (SetOf(total) - SetOf([])) == SetOf(total);
  }

  /** A graph that is written, in two passes, and read is read as an isomorphic graph. */
  method RoundTrip(h: Heap, roots: seq<Addr>)
    returns (counted: seq<Token>, sent: seq<Token>, copy: Heap, images: seq<Addr>, ghost f: map<Addr, Addr>)
    requires Closed(h) && AllPoint(h, roots)
    ensures counted == sent
    ensures Isomorphic(h, roots, f, copy, images)
  {
    ghost var ids;
    counted, sent, ids := WriteTwice(h, roots);
    copy, images, f := ReadBack(h, roots, ids, sent);
  }
}
