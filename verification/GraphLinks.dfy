/** The graph reader on the table of ids: a node with an id is entered where it has been read, and an href makes a
    pointer cell hold the node, through soap_id_enter, soap_id_lookup and soap_resolve (nPVR/stdsoap2.cpp). */
module GraphLinks {
  import opened Chains
  import opened IdLinks
  import opened Graphs
  import opened GraphReader

  /** What the reader does about ids: a node at an address, or an href */
  datatype Event = Object(id: nat, at: Addr) | Href(id: nat)

  /** The nodes get the addresses from next on. */
  function Events(text: seq<Token>, next: Addr): seq<Event> {
    if text == [] then []
    else
      match text[0]
      case Begin(id, val) => (if id == 0 then [] else [Object(id, next)]) + Events(text[1..], next + 1)
      case Ref(id) => [Href(id)] + Events(text[1..], next)
      case _ => Events(text[1..], next)
  }

  function Known(events: seq<Event>, iht: map<nat, Addr>): map<nat, Addr> {
    if events == [] then iht
    else Known(events[1..], if events[0].Object? then iht[events[0].id := events[0].at] else iht)
  }

  /** An id is entered once, and referred to after that. */
  predicate InOrder(events: seq<Event>, iht: map<nat, Addr>) {
    events == []
    || match events[0]
       case Object(id, at) => at != NULL && id !in iht && InOrder(events[1..], iht[id := at])
       case Href(id) => id in iht && InOrder(events[1..], iht)
  }

  /** An id is entered once. */
  predicate Once(events: seq<Event>, iht: map<nat, Addr>) {
    events == []
    || match events[0]
       case Object(id, at) => at != NULL && id !in iht && Once(events[1..], iht[id := at])
       case Href(id) => Once(events[1..], iht)
  }

  /** The events of a text and the table, as reading goes on */
  ghost predicate Leads(st: Reading, st': Reading) {
    var e, e' := Events(st.input, st.next), Events(st'.input, st'.next);
    && (InOrder(e', st'.iht) ==> InOrder(e, st.iht)) && Known(e, st.iht) == Known(e', st'.iht) && st.next <= st'.next
  }

  lemma FirstEvent(text: seq<Token>, next: Addr, e: Event)
    ensures ([e] + Events(text, next))[0] == e && ([e] + Events(text, next))[1..] == Events(text, next)
  {
  }

  lemma {:induction false} ReadOneLeads(st: Reading)
    requires ReadOne(st).Got? && st.next > 0
    ensures Leads(st, ReadOne(st).st)
    decreases |st.input|, 0
  {
    var t := st.input[0];
    match t
    case Nil =>
    case Ref(id) => FirstEvent(st.input[1..], st.next, Href(id));
    case Begin(id, val) =>
      var s1 := EnterId(st, id, val);
      ReadManyLeads(s1);
      FirstEvent(st.input[1..], st.next + 1, Object(id, st.next));
      assert [] + Events(st.input[1..], st.next + 1) == Events(st.input[1..], st.next + 1);
      assert Leads(st, s1);
  }

  lemma {:induction false} ReadManyLeads(st: Reading)
    requires ReadMany(st).Got? && st.next > 0
    ensures Leads(st, ReadMany(st).st)
    decreases |st.input|, 1
  {
    if st.input[0] != End {
      ReadOneLeads(st);
      ReadManyLeads(ReadOne(st).st);
    }
  }

  lemma {:induction false} EventsOfEnd(text: seq<Token>, next: Addr)
    ensures Events(text + [End], next) == Events(text, next)
  {
    if text != [] {
      assert (text + [End])[0] == text[0] && (text + [End])[1..] == text[1..] + [End];
      EventsOfEnd(text[1..], next);
      EventsOfEnd(text[1..], next + 1);
    }
  }

  /** A decimal number */
  function Decimal(n: nat): (s: string)
    ensures s != []
  {
    var d := ['0' + (n % 10) as char];
    if n < 10 then d else Decimal(n / 10) + d
  }

  lemma {:induction false} DecimalInjective(m: nat, n: nat)
    requires Decimal(m) == Decimal(n)
    ensures m == n
  {
    var a, b := Decimal(m), Decimal(n);
    assert a[|a| - 1] == '0' + (m % 10) as char && b[|b| - 1] == '0' + (n % 10) as char;
    assert m % 10 == n % 10;
    assert a[..|a| - 1] == if m < 10 then "" else Decimal(m / 10);
    assert b[..|b| - 1] == if n < 10 then "" else Decimal(n / 10);
    if m >= 10 && n >= 10 {
      DecimalInjective(m / 10, n / 10);
    }
  }

  /** The href that soap_element_ref writes: a number sign, an underscore and the id */
  function Name(id: nat): string {
    "#_" + Decimal(id)
  }

  lemma NameInjective(m: nat, n: nat)
    requires Name(m) == Name(n)
    ensures m == n
  {
    assert Name(m)[2..] == Decimal(m) && Name(n)[2..] == Decimal(n);
    DecimalInjective(m, n);
  }

  /** A pointer cell and the id it was given */
  datatype Cell = Cell(at: Addr, id: nat)

  const TYPE: int := 1
  const SIZE: nat := 1

  /** The table holds the nodes entered, and the ids that cells wait for. */
  ghost predicate Listed(table: map<string, Ilist>, iht: map<nat, Addr>, cells: seq<Cell>) {
    && (forall id {:trigger Name(id)} :: id in iht ==> EnteredAs(table, Name(id), iht[id]))
    && (forall s :: s in table ==> Named(iht, s) || StillAwaited(table, cells, s))
  }

  ghost predicate EnteredAs(table: map<string, Ilist>, name: string, at: Addr) {
    name in table && table[name].ptr == at != NULL && table[name].level == 0 && table[name].typ == TYPE
  }

  ghost predicate Named(iht: map<nat, Addr>, s: string) {
    exists id :: id in iht && s == Name(id)
  }

  ghost predicate StillAwaited(table: map<string, Ilist>, cells: seq<Cell>, s: string) {
    && s in table && table[s].ptr == NULL && table[s].typ == TYPE
    && exists i :: 0 <= i < |cells| && s == Name(cells[i].id)
  }

  /** Every cell is registered for its id. */
  ghost predicate Registered(regs: map<Addr, Reg>, cells: seq<Cell>) {
    forall i :: 0 <= i < |cells| ==> RegisteredFor(regs, cells[i].at, Name(cells[i].id))
  }

  ghost predicate RegisteredFor(regs: map<Addr, Reg>, p: Addr, name: string) {
    p in regs && regs[p].id == name && regs[p].level == 0
  }

  /** The cell points to the node of its id. */
  ghost predicate Holds(c: Cell, mem: map<Addr, Addr>, iht: map<nat, Addr>) {
    c.id in iht && c.at in mem && mem[c.at] == iht[c.id]
  }

  /** Each href has its node. */
  ghost predicate Answered(events: seq<Event>, iht: map<nat, Addr>) {
    forall i :: 0 <= i < |Hrefs(events)| ==> Hrefs(events)[i] in iht
  }

  /** What the cells were given, in order */
  function Hrefs(events: seq<Event>): seq<nat> {
    if events == [] then [] else (if events[0].Href? then [events[0].id] else []) + Hrefs(events[1..])
  }

  /** The cells made for a list of events */
  ghost predicate Made(events: seq<Event>, before: seq<Cell>, cells: seq<Cell>) {
    && |cells| == |before| + |Hrefs(events)| && before <= cells
    && forall i :: 0 <= i < |Hrefs(events)| ==> cells[|before| + i].id == Hrefs(events)[i]
  }

  lemma HrefsStep(events: seq<Event>, before: seq<Cell>, first: seq<Cell>, cells: seq<Cell>)
    requires events != [] && Made(events[1..], first, cells)
    requires if events[0].Href? then |first| == |before| + 1 && before <= first && first[|before|].id == events[0].id
             else first == before
    ensures Made(events, before, cells)
  {
    var h := Hrefs(events);
    assert h == (if events[0].Href? then [events[0].id] else []) + Hrefs(events[1..]);
    forall i | 0 <= i < |h|
      ensures cells[|before| + i].id == h[i]
    {
      if events[0].Href? && i > 0 {
        assert h[i] == Hrefs(events[1..])[i - 1];
      }
    }
  }

  class Linker {
    const soap: Soap
    ghost var iht: map<nat, Addr>
    var cells: seq<Cell>

    ghost predicate Valid()
      reads this, soap
    {
      soap.Now().Valid() && soap.Now().Tight() && Listed(soap.iht, iht, cells) && Registered(soap.regs, cells)
    }

    constructor (cells: map<Addr, Addr>)
      requires NULL !in cells
      ensures Valid() && fresh(soap) && iht == map[] && this.cells == []
    {
      soap := new Soap(cells);
      this.iht, this.cells := map[], [];
    }

    /** A node with an id has been read. */
    method EnterObject(id: nat, at: Addr)
      requires Valid() && at != NULL && id !in iht
      modifies this`iht, soap
      ensures Valid() && iht == old(iht)[id := at]
    {
      ghost var table := soap.iht;
      NotYet(table, iht, cells, id);
      var r := soap.Enter(Name(id), at, TYPE, SIZE, 0);
      EnteredToo(table, soap.iht, iht, cells, id, at);
      iht := iht[id := at];
    }

    /** A pointer cell nobody has */
    method NewCell() returns (p: Addr)
      requires Valid()
      modifies soap
      ensures Valid() && p != NULL && p in soap.mem && p !in soap.track && p !in soap.regs
    {
      ghost var v := soap.Now();
      p := soap.Malloc();
      FreshCell(v, p);
      AllocationKeepsValid(v, p, soap.mem[p]);
    }

    /** An href makes the cell p wait for the node, or point to it. */
    method Register(id: nat, p: Addr)
      requires Valid() && p != NULL && p in soap.mem && p !in soap.track
      modifies soap
      ensures soap.Now().Valid() && soap.Now().Tight() && Listed(soap.iht, iht, cells + [Cell(p, id)])
      ensures exists early :: soap.regs == old(soap.regs)[p := Reg(Name(id), 0, early)]
    {
      ghost var table := soap.iht;
      NoClash(table, iht, cells, id);
      var r := soap.Lookup(Name(id), p, TYPE, SIZE, 0);
      StillListed(table, soap.iht, iht, cells, Cell(p, id));
    }

    /** An href: a pointer cell of its own */
    method LookupHref(id: nat)
      requires Valid()
      modifies this`cells, soap
      ensures Valid() && |cells| == |old(cells)| + 1 && cells[..|old(cells)|] == old(cells) && cells[|old(cells)|].id == id
    {
      var p := NewCell();
      ghost var regs := soap.regs;
      Register(id, p);
      OneMoreCell(regs, soap.regs, cells, p, id);
      cells := cells + [Cell(p, id)];
    }

    /** All that a text asks for */
    method Follow(events: seq<Event>)
      requires Valid() && Once(events, iht)
      modifies this, soap
      ensures Valid() && iht == Known(events, old(iht))
      ensures Made(events, old(cells), cells)
      decreases |events|
    {
      if events == [] {
        return;
      }
      ghost var before := cells;
      match events[0] {
        case Object(id, at) => EnterObject(id, at);
        case Href(id) => LookupHref(id);
      }
      ghost var first := cells;
      Follow(events[1..]);
      HrefsStep(events, before, first, cells);
    }

    /** The end of the message: soap_resolve. Unless a node never came, every href cell points to its node. */
    method Resolve() returns (status: Status)
      requires Valid()
      modifies soap
      ensures status == (if forall i :: 0 <= i < |cells| ==> cells[i].id in iht then SoapOk else SoapMissingId)
      ensures status == SoapOk ==> forall i :: 0 <= i < |cells| ==> Holds(cells[i], soap.mem, iht)
    {
      ghost var v := soap.Now();
      MissingIff(v, iht, cells);
      status := soap.ResolveLinks();
      if status == SoapOk {
        forall i | 0 <= i < |cells|
          ensures Holds(cells[i], soap.mem, iht)
        {
          OneDereference(v, soap.Now(), iht, cells, i);
        }
      }
    }
  }

  lemma NotYet(table: map<string, Ilist>, iht: map<nat, Addr>, cells: seq<Cell>, id: nat)
    requires Listed(table, iht, cells) && id !in iht
    ensures Name(id) in table ==> StillAwaited(table, cells, Name(id))
  {
    if Named(iht, Name(id)) {
      var i :| i in iht && Name(id) == Name(i);
      NameInjective(id, i);
    }
  }

  lemma NoClash(table: map<string, Ilist>, iht: map<nat, Addr>, cells: seq<Cell>, id: nat)
    requires Listed(table, iht, cells)
    ensures !Clashes(table, Name(id), TYPE)
  {
    if id in iht {
      assert EnteredAs(table, Name(id), iht[id]);
    } else {
      NotYet(table, iht, cells, id);
    }
  }

  lemma EnteredToo(table: map<string, Ilist>, table': map<string, Ilist>, iht: map<nat, Addr>, cells: seq<Cell>, id: nat,
                   at: Addr)
    requires Listed(table, iht, cells) && id !in iht && table'.Keys == table.Keys + {Name(id)}
    requires EnteredAs(table', Name(id), at) && forall s :: s in table && s != Name(id) ==> table'[s] == table[s]
    ensures Listed(table', iht[id := at], cells)
  {
    forall i {:trigger Name(i)} | i in iht[id := at]
      ensures EnteredAs(table', Name(i), iht[id := at][i])
    {
      if i != id {
        assert EnteredAs(table, Name(i), iht[i]);
        if Name(i) == Name(id) {
          NameInjective(i, id);
        }
      }
    }
    forall s | s in table'
      ensures Named(iht[id := at], s) || StillAwaited(table', cells, s)
    {
      if s == Name(id) {
        assert id in iht[id := at];
      } else if Named(iht, s) {
        var i :| i in iht && s == Name(i);
        assert i in iht[id := at];
      }
    }
  }

  lemma StillListed(table: map<string, Ilist>, table': map<string, Ilist>, iht: map<nat, Addr>, cells: seq<Cell>, c: Cell)
    requires Listed(table, iht, cells) && SameEntered(table, table') && table'.Keys == table.Keys + {Name(c.id)}
    requires Name(c.id) !in table ==> table'[Name(c.id)].typ == TYPE
    ensures Listed(table', iht, cells + [c])
  {
    forall i {:trigger Name(i)} | i in iht
      ensures EnteredAs(table', Name(i), iht[i])
    {
      assert EnteredAs(table, Name(i), iht[i]);
    }
    forall s | s in table'
      ensures Named(iht, s) || StillAwaited(table', cells + [c], s)
    {
      if s in table && !Named(iht, s) {
        var i :| 0 <= i < |cells| && s == Name(cells[i].id);
        assert (cells + [c])[i] == cells[i];
      } else if s !in table {
        assert (cells + [c])[|cells|] == c;
      }
    }
  }

  lemma OneMoreCell(regs: map<Addr, Reg>, regs': map<Addr, Reg>, cells: seq<Cell>, p: Addr, id: nat)
    requires Registered(regs, cells) && p !in regs && exists early :: regs' == regs[p := Reg(Name(id), 0, early)]
    ensures Registered(regs', cells + [Cell(p, id)])
  {
    forall i | 0 <= i < |cells|
      ensures RegisteredFor(regs', cells[i].at, Name(cells[i].id))
    {
      assert RegisteredFor(regs, cells[i].at, Name(cells[i].id));
    }
  }

  /** An id is missing in the end exactly if a cell was given it and no node was. */
  lemma MissingIff(v: View, iht: map<nat, Addr>, cells: seq<Cell>)
    requires v.Valid() && Listed(v.iht, iht, cells) && Registered(v.regs, cells)
    ensures SomeMissing(v.iht) <==> exists i :: 0 <= i < |cells| && cells[i].id !in iht
  {
    if SomeMissing(v.iht) {
      var s :| Missing(v.iht, s);
      assert StillAwaited(v.iht, cells, s);
      var i :| 0 <= i < |cells| && s == Name(cells[i].id);
      assert cells[i].id !in iht;
    }
    if i :| 0 <= i < |cells| && cells[i].id !in iht {
      assert RegisteredFor(v.regs, cells[i].at, Name(cells[i].id)) && v.RegOk(cells[i].at);
      NotYet(v.iht, iht, cells, cells[i].id);
      assert Missing(v.iht, Name(cells[i].id));
    }
  }

  lemma FreshCell(v: View, p: Addr)
    requires v.Valid() && p !in v.mem
    ensures p !in v.track && p !in v.regs
  {
    TrackedInMemory(v);
    forall q | q in v.regs
      ensures q in v.track
    {
      assert v.RegOk(q);
    }
  }

  lemma OneDereference(v: View, w: View, iht: map<nat, Addr>, cells: seq<Cell>, i: nat)
    requires Listed(v.iht, iht, cells) && Registered(w.regs, cells) && i < |cells| && SameObjects(v.iht, w.iht)
    requires cells[i].id in iht && (cells[i].at in w.regs ==> w.Connected(cells[i].at))
    ensures Holds(cells[i], w.mem, iht)
  {
    var c := cells[i];
    assert RegisteredFor(w.regs, c.at, Name(c.id)) && EnteredAs(v.iht, Name(c.id), iht[c.id]);
    assert w.Owed(c.at) == 1;
    assert Reaches(w.mem, w.mem[c.at], 0, iht[c.id]);
  }

  /** Any text in which an id is entered once, before or after the hrefs to it. The hrefs are resolved exactly if each has
      its node, and then every cell points to the node that has its id. */
  method LinkText(events: seq<Event>) returns (status: Status, cells: seq<Cell>, mem: map<Addr, Addr>)
    requires Once(events, map[])
    ensures Made(events, [], cells)
    ensures status == if Answered(events, Known(events, map[])) then SoapOk else SoapMissingId
    ensures status == SoapOk ==> forall i :: 0 <= i < |cells| ==> Holds(cells[i], mem, Known(events, map[]))
  {
    var linker := new Linker(map[]);
    linker.Follow(events);
    AnsweredIff(events, linker.iht, linker.cells);
    status := linker.Resolve();
    cells, mem := linker.cells, linker.soap.mem;
  }

  lemma AnsweredIff(events: seq<Event>, iht: map<nat, Addr>, cells: seq<Cell>)
    requires Made(events, [], cells)
    ensures Answered(events, iht) <==> forall i :: 0 <= i < |cells| ==> cells[i].id in iht
  {
    var h := Hrefs(events);
    forall i | 0 <= i < |h|
      ensures cells[i].id == h[i]
    {
      assert cells[0 + i].id == h[i];
    }
  }

  lemma {:induction false} InOrderAnswered(events: seq<Event>, iht: map<nat, Addr>)
    requires InOrder(events, iht)
    ensures Once(events, iht) && iht.Keys <= Known(events, iht).Keys && Answered(events, Known(events, iht))
  {
    if events != [] {
      var iht' := if events[0].Object? then iht[events[0].id := events[0].at] else iht;
      InOrderAnswered(events[1..], iht');
      var h := Hrefs(events);
      forall i | 0 <= i < |h|
        ensures h[i] in Known(events, iht)
      {
        if events[0].Href? && i > 0 {
          assert h[i] == Hrefs(events[1..])[i - 1];
        }
      }
    }
  }

  /** What the text of a graph asks of the table, and what is in the table in the end */
  lemma GraphEvents(h: Heap, roots: seq<Addr>, ids: map<Addr, nat>, sent: seq<Token>)
    returns (f: map<Addr, Addr>, st: Reading)
    requires Closed(h) && AllPoint(h, roots) && Naming(ids) && forall p :: p in VisitsAll(h, roots, {}) ==> p in ids
    requires sent == TextAll(h, ids, VisitsAll(h, roots, {}), roots, {})
    ensures Isomorphic(h, roots, f, st.heap, ImageAll(f, roots))
    ensures Placed(ids, VisitsAll(h, roots, {}), SetOf(VisitsAll(h, roots, {})), f, st)
    ensures InOrder(Events(sent, 1), map[]) && Known(Events(sent, 1), map[]) == st.iht
  {
    var total := VisitsAll(h, roots, {});
    FromNothing(total);
    var start := Reading(map[], map[], 1, sent + [End]);
    assert [End] + [] == [End];
    f, st := TextsAreRead(h, ids, total, roots, [], {}, map[], start, []);
    WholeIsIsomorphic(h, ids, roots, f, st, ImageAll(f, roots));
    ReadManyLeads(start);
    EventsOfEnd(sent, 1);
  }

  /** A graph that is written, and read with the table of ids: each href cell holds the copy of the node it was written
      for, which is the one that the isomorphism gives. */
  method ReadLinks(h: Heap, roots: seq<Addr>)
    returns (sent: seq<Token>, cells: seq<Cell>, mem: map<Addr, Addr>, ghost ids: map<Addr, nat>, ghost f: map<Addr, Addr>,
      ghost copy: Heap)
    requires Closed(h) && AllPoint(h, roots)
    ensures Isomorphic(h, roots, f, copy, ImageAll(f, roots)) && Naming(ids)
    ensures sent == TextAll(h, ids, VisitsAll(h, roots, {}), roots, {}) && Made(Events(sent, 1), [], cells)
    ensures forall i :: 0 <= i < |cells| ==> HoldsCopy(cells[i], mem, ids, f)
  {
    var counted;
    counted, sent, ids := WriteTwice(h, roots);
    ghost var st;
    f, st := GraphEvents(h, roots, ids, sent);
    copy := st.heap;
    InOrderAnswered(Events(sent, 1), map[]);
    var status;
    status, cells, mem := LinkText(Events(sent, 1));
    forall i | 0 <= i < |cells|
      ensures HoldsCopy(cells[i], mem, ids, f)
    {
      var k := cells[i].id;
      assert Holds(cells[i], mem, st.iht);
      var p :| p in f && p in ids && ids[p] == k && st.iht[k] == f[p];
    }
  }

  /** The cell is a pointer to the copy of the node that has its id. */
  ghost predicate HoldsCopy(c: Cell, mem: map<Addr, Addr>, ids: map<Addr, nat>, f: map<Addr, Addr>) {
    c.at in mem && exists q :: q in f && q in ids && ids[q] == c.id && mem[c.at] == f[q]
  }
}
