/** The blocks in which nPVR/stdsoap2.cpp collects text of unknown length: soap_push_block, soap_size_block,
    soap_first_block, soap_next_block and soap_save_block. The list is newest first; it is turned round in
    place before the blocks are copied out. */
module BlockLists {
  import opened Bytes
  import opened Chains

  datatype Block = Block(next: Addr, data: seq<Byte>)

  /** The blocks of list are linked in order from p. */
  ghost predicate Linked(heap: map<Addr, Block>, p: Addr, list: seq<Addr>) {
    && NULL !in heap && p == (if list == [] then NULL else list[0])
    && (forall i :: 0 <= i < |list| ==> list[i] in heap)
    && (forall i {:trigger After(list, i)} :: 0 <= i < |list| ==> heap[list[i]].next == After(list, i))
    && (forall i, j :: 0 <= i < j < |list| ==> list[i] != list[j])
  }

  ghost predicate Within(heap: map<Addr, Block>, list: seq<Addr>) {
    forall i :: 0 <= i < |list| ==> list[i] in heap
  }

  /** What blocks hold that are listed newest first. */
  ghost function Contents(heap: map<Addr, Block>, list: seq<Addr>): seq<Byte>
    requires Within(heap, list)
  {
    if list == [] then [] else Contents(heap, list[1..]) + heap[list[0]].data
  }

  /** What blocks hold that are listed oldest first. */
  ghost function InOrder(heap: map<Addr, Block>, list: seq<Addr>): seq<Byte>
    requires Within(heap, list)
  {
    if list == [] then [] else heap[list[0]].data + InOrder(heap, list[1..])
  }

  ghost predicate SameData(heap: map<Addr, Block>, heap': map<Addr, Block>, list: seq<Addr>)
    requires Within(heap, list) && Within(heap', list)
  {
    forall i :: 0 <= i < |list| ==> heap'[list[i]].data == heap[list[i]].data
  }

  lemma {:induction false} ContentsSame(heap: map<Addr, Block>, heap': map<Addr, Block>, list: seq<Addr>)
    requires Within(heap, list) && Within(heap', list) && SameData(heap, heap', list)
    ensures Contents(heap', list) == Contents(heap, list)
  {
    if list != [] {
      ContentsSame(heap, heap', list[1..]);
    }
  }

  lemma {:induction false} InOrderSame(heap: map<Addr, Block>, heap': map<Addr, Block>, list: seq<Addr>)
    requires Within(heap, list) && Within(heap', list) && SameData(heap, heap', list)
    ensures InOrder(heap', list) == InOrder(heap, list)
  {
    if list != [] {
      InOrderSame(heap, heap', list[1..]);
    }
  }

  lemma Rest(heap: map<Addr, Block>, p: Addr, list: seq<Addr>)
    requires Linked(heap, p, list) && list != []
    ensures Linked(heap, heap[p].next, list[1..]) && p !in list[1..]
  {
    assert heap[list[0]].next == After(list, 0);
    forall i | 0 <= i < |list[1..]|
      ensures heap[list[1..][i]].next == After(list[1..], i)
    {
      assert heap[list[i + 1]].next == After(list, i + 1);
    }
  }

  lemma InFront(heap: map<Addr, Block>, p: Addr, list: seq<Addr>, q: Addr, data: seq<Byte>)
    requires Linked(heap, p, list) && q !in list && q != NULL
    ensures Linked(heap[q := Block(p, data)], q, [q] + list)
  {
    var heap' := heap[q := Block(p, data)];
    forall i | 0 <= i < |[q] + list|
      ensures heap'[([q] + list)[i]].next == After([q] + list, i)
    {
      if i > 0 {
        assert heap[list[i - 1]].next == After(list, i - 1);
      }
    }
  }

  class BlockList {
    var heap: map<Addr, Block>
    var ptr: Addr
    var size: nat
    ghost var list: seq<Addr>

    ghost predicate Valid()
      reads this
    {
      Linked(heap, ptr, list) && size == |Contents(heap, list)|
    }

    ghost function All(): seq<Byte>
      requires Valid()
      reads this
    {
      Contents(heap, list)
    }

    /** What is held with only the first i bytes of the newest block counted. */
    ghost function UpTo(i: nat): seq<Byte>
      requires Valid() && list != [] && i <= |heap[ptr].data|
      reads this
    {
      Contents(heap, list[1..]) + heap[ptr].data[..i]
    }

    /** soap_new_block */
    constructor ()
      ensures Valid() && list == [] && All() == []
    {
      heap, ptr, size, list := map[], NULL, 0, [];
    }

    /** soap_push_block: a block of n bytes, whatever they are */
    method Push(n: nat)
      requires Valid()
      modifies this
      ensures Valid() && list != [] && |heap[ptr].data| == n && UpTo(0) == old(All())
    {
      var p: Addr;
      ghost var bound := UpperBound(heap.Keys);
      assert bound !in heap && bound != NULL;
      p :| p !in heap && p != NULL;
      var junk: seq<Byte> := seq(n, _ => 0);
      InFront(heap, ptr, list, p, junk);
      ContentsSame(heap, heap[p := Block(ptr, junk)], list);
      assert ([p] + list)[1..] == list;
      heap, ptr, size, list := heap[p := Block(ptr, junk)], p, size + n, [p] + list;
      assert All() + [] == All();
      assert heap[ptr].data[..0] == [];
    }

    /** Another block of n bytes if the newest one, of the same size, is full */
    method Room(n: nat, i: nat) returns (j: nat)
      requires Valid() && list != [] && |heap[ptr].data| == n && i <= n && 0 < n
      modifies this
      ensures Valid() && list != [] && |heap[ptr].data| == n && j < n && UpTo(j) == old(UpTo(i))
    {
      j := i;
      if i == n {
        assert heap[ptr].data[..n] == heap[ptr].data;
        Push(n);
        j := 0;
      }
    }

    /** A byte written to the newest block */
    method Write(i: nat, b: Byte)
      requires Valid() && list != [] && i < |heap[ptr].data|
      modifies this`heap
      ensures Valid() && |heap[ptr].data| == old(|heap[ptr].data|) && UpTo(i + 1) == old(UpTo(i)) + [b]
    {
      ghost var was := heap;
      heap := heap[ptr := heap[ptr].(data := heap[ptr].data[i := b])];
      NewestChanged(was, heap, ptr, list);
      assert heap[ptr].data[..i + 1] == was[ptr].data[..i] + [b];
      Regroup(Contents(was, list[1..]), was[ptr].data[..i], [b]);
    }

    /** soap_size_block: the newest block cut to n bytes */
    method Cut(n: nat)
      requires Valid() && list != [] && n <= |heap[ptr].data|
      modifies this`heap, this`size
      ensures Valid() && All() == old(UpTo(n))
    {
      ghost var was := heap;
      size := size - (|heap[ptr].data| - n);
      heap := heap[ptr := heap[ptr].(data := heap[ptr].data[..n])];
      NewestChanged(was, heap, ptr, list);
    }

    /** soap_first_block: the list turned round in place */
    method First() returns (ghost fwd: seq<Addr>)
      requires Valid()
      modifies this`heap, this`ptr
      ensures Linked(heap, ptr, fwd) && InOrder(heap, fwd) == old(All())
    {
      fwd := [];
      var p, r := ptr, NULL;
      ghost var todo := list;
      while p != NULL
        invariant Linked(heap, p, todo) && Linked(heap, r, fwd) && forall q :: q in todo ==> q !in fwd
        invariant Contents(heap, todo) + InOrder(heap, fwd) == old(All())
        decreases |todo|
      {
        TurnOne(heap, p, r, todo, fwd);
        var q := heap[p].next;
        heap := heap[p := heap[p].(next := r)];
        r := p;
        todo, fwd := todo[1..], [p] + fwd;
        p := q;
      }
      assert [] + InOrder(heap, fwd) == InOrder(heap, fwd);
      ptr := r;
    }

    /** soap_save_block: all blocks copied into one piece */
    method Save() returns (s: seq<Byte>)
      requires Valid()
      modifies this
      ensures s == old(All()) && Valid() && list == []
    {
      s := [];
      ghost var fwd: seq<Addr>;
      ghost var all := All();
      fwd := First();
      while ptr != NULL
        invariant Linked(heap, ptr, fwd) && s + InOrder(heap, fwd) == all
        decreases |fwd|
      {
        Rest(heap, ptr, fwd);
        Regroup(s, heap[ptr].data, InOrder(heap, fwd[1..]));
        s := s + heap[ptr].data;
        var p := ptr;
        ptr := heap[ptr].next;
        Freed(heap, p, ptr, fwd[1..]);
        heap := heap - {p};
        fwd := fwd[1..];
      }
      assert s + [] == s;
      heap, size, list := map[], 0, [];
    }
  }

  lemma Freed(heap: map<Addr, Block>, p: Addr, q: Addr, list: seq<Addr>)
    requires Linked(heap, q, list) && p !in list
    ensures Linked(heap - {p}, q, list) && InOrder(heap - {p}, list) == InOrder(heap, list)
  {
    InOrderSame(heap, heap - {p}, list);
  }

  lemma NewestChanged(heap: map<Addr, Block>, heap': map<Addr, Block>, p: Addr, list: seq<Addr>)
    requires Linked(heap, p, list) && list != [] && p in heap' && heap' == heap[p := heap[p].(data := heap'[p].data)]
    ensures Linked(heap', p, list) && Contents(heap', list[1..]) == Contents(heap, list[1..])
    ensures |Contents(heap', list)| == |Contents(heap, list)| - |heap[p].data| + |heap'[p].data|
  {
    Rest(heap, p, list);
    ContentsSame(heap, heap', list[1..]);
    forall i | 0 <= i < |list|
      ensures heap'[list[i]].next == After(list, i)
    {
      assert heap[list[i]].next == After(list, i);
    }
  }

  lemma TurnOne(heap: map<Addr, Block>, p: Addr, r: Addr, todo: seq<Addr>, fwd: seq<Addr>)
    requires Linked(heap, p, todo) && Linked(heap, r, fwd) && p != NULL && forall q :: q in todo ==> q !in fwd
    ensures
      var heap' := heap[p := heap[p].(next := r)];
      && Linked(heap', heap[p].next, todo[1..]) && Linked(heap', p, [p] + fwd)
      && (forall q :: q in todo[1..] ==> q !in [p] + fwd)
      && Contents(heap', todo[1..]) + InOrder(heap', [p] + fwd) == Contents(heap, todo) + InOrder(heap, fwd)
  {
    var heap' := heap[p := heap[p].(next := r)];
    assert p in todo;
    Rest(heap, p, todo);
    InFront(heap, r, fwd, p, heap[p].data);
    Unchanged(heap, heap', p, heap[p].next, todo[1..]);
    ContentsSame(heap, heap', todo[1..]);
    InOrderSame(heap, heap', fwd);
    assert ([p] + fwd)[1..] == fwd;
    Regroup(Contents(heap, todo[1..]), heap[p].data, InOrder(heap, fwd));
  }

  lemma Unchanged(heap: map<Addr, Block>, heap': map<Addr, Block>, p: Addr, q: Addr, list: seq<Addr>)
    requires Linked(heap, q, list) && p !in list && p in heap && p in heap' && heap' == heap[p := heap'[p]]
    ensures Linked(heap', q, list)
  {
    forall i | 0 <= i < |list|
      ensures heap'[list[i]].next == After(list, i)
    {
      assert heap[list[i]].next == After(list, i);
    }
  }
}

/** What the tokens of character data are: soap_get and soap_char of nPVR/stdsoap2.cpp outside of CDATA
    sections, comments and processing instructions. */
module XmlTokens {
  import opened Bytes
  import opened Escapes

  const EOF := -1
  const LT := -2
  const TT := -3
  const GT := -4
  const QT := -5
  const AP := -6
  const UNKNOWN := 127

  /** A code from a reference is marked by the sign bit of soap_wchar. */
  const SIGN := 0x8000_0000

  type Entities = map<seq<Byte>, nat>

  predicate IsBlank(c: int) {
    0 <= c <= 32
  }

  function Marked(code: nat): int {
    code - SIGN
  }

  function SkipBlanks(w: seq<Byte>): (r: seq<Byte>)
    ensures |r| <= |w|
  {
    if w != [] && IsBlank(w[0]) then SkipBlanks(w[1..]) else w
  }

  datatype Name = Name(chars: seq<Byte>, rest: seq<Byte>)

  /** The chars of a reference, n at most, up to a semicolon that is read too. */
  function RefName(w: seq<Byte>, n: nat): (r: Name)
    ensures |r.rest| <= |w| && |r.chars| <= n
  {
    if n == 0 then Name([], w)
    else if w == [] then Name([], [])
    else if w[0] == 59 then Name([], w[1..])
    else
      var r := RefName(w[1..], n - 1);
      Name([w[0]] + r.chars, r.rest)
  }

  function DigitOf(c: Byte): (d: int) {
    if 48 <= c <= 57 then c - 48 else if 65 <= c <= 70 then c - 55 else if 97 <= c <= 102 then c - 87 else 99
  }

  /** atol and strtol: the value of the leading digits. */
  function Number(s: seq<Byte>, base: nat, acc: nat): nat {
    if s == [] || DigitOf(s[0]) >= base then acc else Number(s[1..], base, base * acc + DigitOf(s[0]))
  }

  /** soap_char */
  function CodeOf(name: seq<Byte>, entities: Entities): nat {
    if name != [] && name[0] == 35 then
      if |name| > 1 && (name[1] == 120 || name[1] == 88) then Number(name[2..], 16, 0) else Number(name[1..], 10, 0)
    else if name == [108, 116] then 60
    else if name == [103, 116] then 62
    else if name == [97, 109, 112] then 38
    else if name == [113, 117, 111, 116] then 34
    else if name == [97, 112, 111, 115] then 39
    else if name in entities then entities[name]
    else UNKNOWN
  }

  datatype Token = Token(c: int, rest: seq<Byte>)

  /** The next token, unless a comment, a CDATA section or a processing instruction comes next. */
  function TokenOf(w: seq<Byte>, entities: Entities): (t: Option<Token>)
    ensures t.Some? ==> |t.value.rest| <= |w|
    ensures t.Some? && w != [] ==> |t.value.rest| < |w|
  {
    if w == [] then Some(Token(EOF, []))
    else if w[0] == 60 then
      var r := SkipBlanks(w[1..]);
      if r == [] then Some(Token(LT, []))
      else if r[0] == 47 then Some(Token(TT, r[1..]))
      else if r[0] == 33 || r[0] == 63 || r[0] == 37 then None
      else Some(Token(LT, r))
    else if w[0] == 62 then Some(Token(GT, w[1..]))
    else if w[0] == 34 then Some(Token(QT, w[1..]))
    else if w[0] == 39 then Some(Token(AP, w[1..]))
    else if w[0] == 38 then
      var n := RefName(w[1..], 7);
      Some(Token(Marked(CodeOf(n.chars, entities)), n.rest))
    else Some(Token(w[0], w[1..]))
  }

  /** Behind the first dash of a comment: from the second of two dashes that end it on */
  function CommentEnd(v: seq<Byte>): (r: seq<Byte>)
    requires v != []
    ensures |r| < |v|
  {
    var a := v[1..];
    if a == [] then []
    else if a[0] != 45 then CommentEnd(a)
    else if |a| == 1 then []
    else if a[1] == 45 then a[1..]
    else CommentEnd(a[1..])
  }

  /** The rest of a declaration from the end of the comment on, if it is one */
  function CommentSkipped(v: seq<Byte>): (r: seq<Byte>)
    ensures |r| <= |v|
  {
    if v == [] || v[0] != 45 then v
    else if |v| > 1 && v[1] == 45 then CommentEnd(v[1..])
    else v[1..]
  }

  /** From the closing bracket of k opened ones on */
  function MarkupEnd(v: seq<Byte>, k: int): (r: seq<Byte>)
    ensures |r| <= |v|
    ensures r != [] ==> r[0] == 62
  {
    if v == [] then []
    else if v[0] == 60 then MarkupEnd(v[1..], k + 1)
    else if v[0] == 62 then if k <= 1 then v else MarkupEnd(v[1..], k - 1)
    else MarkupEnd(v[1..], k)
  }

  function FromBracket(w: seq<Byte>): (r: seq<Byte>)
    ensures |r| <= |w|
  {
    if w == [] || w[0] == 91 then w else FromBracket(w[1..])
  }

  /** What an opening bracket begins: a token, or what is skipped or a CDATA section, with what follows */
  datatype Opened = Begins(c: int, rest: seq<Byte>) | Skipped(rest: seq<Byte>, cdata: bool)

  function Opens(w: seq<Byte>): (o: Opened)
    ensures |o.rest| <= |w|
  {
    var r := SkipBlanks(w);
    if r == [] then Begins(LT, [])
    else if r[0] == 47 then Begins(TT, r[1..])
    else if r[0] == 33 && |r| > 1 && r[1] == 91 then
      var u := FromBracket(r[2..]);
      if u == [] then Begins(EOF, []) else Skipped(u[1..], true)
    else if r[0] == 33 || r[0] == 63 || r[0] == 37 then
      var m := MarkupEnd(if r[0] == 33 then CommentSkipped(r[1..]) else r, 1);
      if m == [] then Begins(EOF, []) else Skipped(m[1..], false)
    else Begins(LT, r)
  }

  /** The next token, what follows it, and whether that is in a CDATA section */
  datatype Scanned = Scanned(c: int, rest: seq<Byte>, cdata: bool)

  function Scan(w: seq<Byte>, cdata: bool, entities: Entities): (s: Scanned)
    ensures if w == [] then s.rest == [] else |s.rest| < |w|
    decreases |w|
  {
    if w == [] then Scanned(EOF, [], cdata)
    else if cdata then
      if w[0] == 93 && |w| > 1 && w[1] == 93 then Scan(From(w, 3), false, entities) else Scanned(w[0], w[1..], true)
    else if w[0] == 60 then
      match Opens(w[1..])
      case Begins(c, rest) => Scanned(c, rest, false)
      case Skipped(rest, inside) => Scan(rest, inside, entities)
    else
      var t := TokenOf(w, entities).value;
      Scanned(t.c, t.rest, false)
  }

  lemma TokenScanned(w: seq<Byte>, entities: Entities)
    ensures
      var t := TokenOf(w, entities);
      t.Some? ==> Scan(w, false, entities) == Scanned(t.value.c, t.value.rest, false)
  {
  }

  /** Section 2.5 of XML 1.0: a dash in a comment is followed by something else. */
  predicate CommentText(s: seq<Byte>) {
    forall i :: 0 <= i < |s| && s[i] == 45 ==> i + 1 < |s| && s[i + 1] != 45
  }

  lemma {:induction false} CommentEnds(d: Byte, s: seq<Byte>, rest: seq<Byte>)
    requires CommentText(s)
    ensures CommentEnd([d] + s + [45, 45] + rest) == [45] + rest
    decreases |s|
  {
    var v := [d] + s + [45, 45] + rest;
    if s == [] {
      assert v[1..] == [45, 45] + rest && ([45, 45] + rest)[1..] == [45] + rest;
    } else if s[0] != 45 {
      assert v[1..] == [s[0]] + s[1..] + [45, 45] + rest;
      CommentEnds(s[0], s[1..], rest);
    } else {
      assert v[1..][1..] == [s[1]] + s[2..] + [45, 45] + rest;
      CommentEnds(s[1], s[2..], rest);
    }
  }

  lemma BracketCloses(d: Byte, rest: seq<Byte>)
    requires d != 60 && d != 62
    ensures MarkupEnd([d] + ([62] + rest), 1) == [62] + rest && ([62] + rest)[1..] == rest
  {
    assert ([d] + ([62] + rest))[1..] == [62] + rest;
  }

  lemma CommentOpens(v: seq<Byte>, end: seq<Byte>)
    requires v != [] && v[0] == 45 && CommentEnd(v) == end && MarkupEnd(end, 1) != []
    ensures Opens([33, 45] + v) == Skipped(MarkupEnd(end, 1)[1..], false)
  {
    var r := [33, 45] + v;
    assert r[1..] == [45] + v && r[1..][1..] == v && SkipBlanks(r) == r && r[1] == 45;
    assert CommentSkipped(r[1..]) == end;
  }

  /** A comment is skipped, whatever is in it. */
  lemma CommentIsSkipped(s: seq<Byte>, rest: seq<Byte>, entities: Entities)
    requires CommentText(s)
    ensures Scan([60, 33, 45, 45] + s + [45, 45, 62] + rest, false, entities) == Scan(rest, false, entities)
  {
    var end := [62] + rest;
    var v := [45] + s + [45, 45] + end;
    var w := [60, 33, 45, 45] + s + [45, 45, 62] + rest;
    assert w[1..] == [33, 45] + v;
    CommentEnds(45, s, end);
    BracketCloses(45, rest);
    CommentOpens(v, [45] + end);
  }

  /** How many brackets are open behind s if k are before it; none when the last of them is closed in it. */
  function Open(s: seq<Byte>, k: nat): Option<nat> {
    if k == 0 then None
    else if s == [] then Some(k)
    else Open(s[1..], if s[0] == 60 then k + 1 else if s[0] == 62 then k - 1 else k)
  }

  /** What is skipped ends at the closing bracket behind s exactly when the brackets in s match. */
  lemma {:induction false} MarkupEndIff(s: seq<Byte>, k: nat, rest: seq<Byte>)
    requires k > 0
    ensures MarkupEnd(s + ([62] + rest), k) == [62] + rest <==> Open(s, k) == Some(1)
    ensures Open(s, k).None? ==> |MarkupEnd(s + ([62] + rest), k)| > |rest| + 1
    ensures Open(s, k).Some? && Open(s, k).value > 1 ==> |MarkupEnd(s + ([62] + rest), k)| <= |rest|
    decreases |s|
  {
    var w := s + ([62] + rest);
    if s == [] {
      assert w == [62] + rest && w[1..] == rest;
    } else {
      assert w[1..] == s[1..] + ([62] + rest);
      if s[0] != 62 || k > 1 {
        MarkupEndIff(s[1..], if s[0] == 60 then k + 1 else if s[0] == 62 then k - 1 else k, rest);
      }
    }
  }

  lemma {:induction false} NoBracketOpen(s: seq<Byte>, k: nat)
    requires k > 0 && 60 !in s && 62 !in s
    ensures Open(s, k) == Some(k)
  {
    if s != [] {
      NoBracketOpen(s[1..], k);
    }
  }

  lemma {:induction false} OpenLater(s: seq<Byte>, b: Byte, k: nat)
    requires b != 60 && b != 62
    ensures Open(s + [b], k) == Open(s, k)
    decreases |s|
  {
    if k > 0 {
      if s == [] {
        assert [] + [b] == [b] && [b][1..] == [];
      } else {
        assert (s + [b])[0] == s[0] && (s + [b])[1..] == s[1..] + [b];
        OpenLater(s[1..], b, if s[0] == 60 then k + 1 else if s[0] == 62 then k - 1 else k);
      }
    }
  }

  /** A processing instruction, or one of a server page: what is between the brackets begins and ends with q. It is
      skipped, and nothing else is, exactly when the brackets in it match. */
  lemma InstructionSkippedIff(q: Byte, s: seq<Byte>, rest: seq<Byte>)
    requires q == 63 || q == 37
    ensures Opens([q] + s + [q, 62] + rest) == Skipped(rest, false) <==> Open(s, 1) == Some(1)
  {
    var inside := [q] + s + [q];
    var r := [q] + s + [q, 62] + rest;
    assert r == inside + ([62] + rest) && SkipBlanks(r) == r && r[0] == q;
    assert inside == [q] + (s + [q]) && inside[1..] == s + [q];
    assert Open(inside, 1) == Open(s + [q], 1);
    OpenLater(s, q, 1);
    MarkupEndIff(inside, 1, rest);
    AfterBracket(MarkupEnd(r, 1), rest);
  }

  lemma AfterBracket(m: seq<Byte>, rest: seq<Byte>)
    ensures m != [] && m[0] == 62 ==> (m[1..] == rest <==> m == [62] + rest)
  {
    if m != [] && m[0] == 62 && m[1..] == rest {
      assert m == [m[0]] + m[1..];
    }
  }

  /** An instruction without brackets in it is skipped. */
  lemma InstructionIsSkipped(q: Byte, s: seq<Byte>, rest: seq<Byte>, entities: Entities)
    requires (q == 63 || q == 37) && 60 !in s && 62 !in s
    ensures Scan([60, q] + s + [q, 62] + rest, false, entities) == Scan(rest, false, entities)
  {
    NoBracketOpen(s, 1);
    InstructionSkippedIff(q, s, rest);
    var w := [60, q] + s + [q, 62] + rest;
    assert w[1..] == [q] + s + [q, 62] + rest;
  }

  /** A declaration that is no comment and no section, with matching brackets inside, is skipped. */
  lemma DeclarationIsSkipped(s: seq<Byte>, rest: seq<Byte>, entities: Entities)
    requires s != [] && s[0] != 91 && s[0] != 45 && Open(s, 1) == Some(1)
    ensures Scan([60, 33] + s + [62] + rest, false, entities) == Scan(rest, false, entities)
  {
    var r := [33] + (s + ([62] + rest));
    var w := [60, 33] + s + [62] + rest;
    assert w[1..] == r && r[1..] == s + ([62] + rest) && SkipBlanks(r) == r && r[1] == s[0];
    MarkupEndIff(s, 1, rest);
    assert ([62] + rest)[1..] == rest;
  }

  /** Where the end of a CDATA section is seen too early: a bracket before another one, or at the very end */
  predicate BracketsMeet(s: seq<Byte>) {
    exists i :: 0 <= i < |s| && s[i] == 93 && (i + 1 == |s| || s[i + 1] == 93)
  }

  /** The bytes of s are read one by one, and then what comes behind the section. */
  predicate CdataRead(s: seq<Byte>, rest: seq<Byte>, entities: Entities) {
    var w := s + ([93, 93, 62] + rest);
    if s == [] then Scan(w, true, entities) == Scan(rest, false, entities)
    else Scan(w, true, entities) == Scanned(s[0], s[1..] + ([93, 93, 62] + rest), true) && CdataRead(s[1..], rest, entities)
  }

  lemma {:induction false} BracketFound(x: seq<Byte>, w: seq<Byte>)
    requires 91 !in x
    ensures FromBracket(x + [91] + w) == [91] + w
  {
    if x == [] {
      assert [] + [91] + w == [91] + w;
    } else {
      assert (x + [91] + w)[1..] == x[1..] + [91] + w;
      BracketFound(x[1..], w);
    }
  }

  lemma CdataStarts(w: seq<Byte>, entities: Entities)
    ensures Scan([60, 33, 91, 67, 68, 65, 84, 65, 91] + w, false, entities) == Scan(w, true, entities)
  {
    var all := [60, 33, 91, 67, 68, 65, 84, 65, 91] + w;
    var r := all[1..];
    assert SkipBlanks(r) == r && r[0] == 33 && r[1] == 91;
    var name: seq<Byte> := [67, 68, 65, 84, 65];
    assert r[2..] == name + [91] + w;
    BracketFound(name, w);
    assert ([91] + w)[1..] == w;
    assert Opens(r) == Skipped(w, true);
  }

  /** A CDATA section is read right exactly when no bracket in it comes before another one or before the end of it. */
  lemma {:induction false} CdataReadIff(s: seq<Byte>, rest: seq<Byte>, entities: Entities)
    ensures CdataRead(s, rest, entities) <==> !BracketsMeet(s)
  {
    var end := [93, 93, 62] + rest;
    var w := s + end;
    if s == [] {
      assert w == end && From(w, 3) == rest;
    } else {
      CdataReadIff(s[1..], rest, entities);
      assert w[1..] == s[1..] + end;
      assert w[1] == if |s| > 1 then s[1] else 93;
      BracketsBehind(s);
    }
  }

  lemma BracketsBehind(s: seq<Byte>)
    requires s != []
    ensures BracketsMeet(s) <==> (s[0] == 93 && (|s| == 1 || s[1] == 93)) || BracketsMeet(s[1..])
  {
    var t := s[1..];
    if i :| 0 <= i < |s| && s[i] == 93 && (i + 1 == |s| || s[i + 1] == 93) {
      if i > 0 {
        assert t[i - 1] == 93 && (i == |t| || t[i] == 93);
      }
    }
    if i :| 0 <= i < |t| && t[i] == 93 && (i + 1 == |t| || t[i + 1] == 93) {
      assert s[i + 1] == 93 && (i + 2 == |s| || s[i + 2] == 93);
    }
  }

  /** The low six bits of byte i, all set behind the end */
  function Tail6(w: seq<Byte>, i: nat): nat {
    if i < |w| then w[i] % 64 else 63
  }

  function From(w: seq<Byte>, i: nat): (r: seq<Byte>)
    ensures |r| <= |w| && (i > 0 && w != [] ==> |r| < |w|)
  {
    if i <= |w| then w[i..] else []
  }

  /** A char of several bytes, the first of which says of how many */
  function Wide(w: seq<Byte>): Token
    requires |w| >= 2
  {
    var c, c1, c2, c3, c4 := w[0], w[1] % 64, Tail6(w, 2), Tail6(w, 3), Tail6(w, 4);
    if c < 224 then Token(c % 32 * 64 + c1, From(w, 2))
    else if c < 240 then Token((c % 16 * 64 + c1) * 64 + c2, From(w, 3))
    else if c < 248 then Token(((c % 8 * 64 + c1) * 64 + c2) * 64 + c3, From(w, 4))
    else if c < 252 then Token((((c % 4 * 64 + c1) * 64 + c2) * 64 + c3) * 64 + c4, From(w, 5))
    else Token(((((c % 2 * 64 + c1) * 64 + c2) * 64 + c3) * 64 + c4) * 64 + Tail6(w, 5), From(w, 6))
  }

  /** The next char outside of CDATA sections, unless its first byte says that there are several and none follows. */
  function CharOf(w: seq<Byte>, entities: Entities): (t: Option<Token>)
    ensures t.Some? ==> |t.value.rest| <= |w|
    ensures t.Some? && w != [] ==> |t.value.rest| < |w|
  {
    var t := Scan(w, false, entities);
    if t.cdata then None
    else if t.c < 128 then Some(Token(t.c, t.rest))
    else if t.c > 255 || t.rest == [] || t.rest[0] < 128 then None
    else Some(Wide([t.c] + t.rest))
  }

  lemma HighToken(w: seq<Byte>, entities: Entities)
    requires w != [] && w[0] >= 128
    ensures TokenOf(w, entities) == Some(Token(w[0], w[1..]))
  {
  }

  lemma WideChar(w: seq<Byte>, entities: Entities)
    requires |w| >= 2 && w[0] >= 128 && w[1] >= 128
    ensures CharOf(w, entities) == Some(Wide(w))
  {
    HighToken(w, entities);
    assert [w[0]] + w[1..] == w;
  }

  lemma TokenIsChar(w: seq<Byte>, t: Token, entities: Entities)
    requires TokenOf(w, entities) == Some(t) && t.c < 128
    ensures CharOf(w, entities) == Some(t)
  {
    TokenScanned(w, entities);
  }

  /** What soap_string_in stores for a token; without the flag, references are kept. */
  function Stored(c: int, flag: bool): (s: seq<Byte>)
    ensures 1 <= |s| <= 6
  {
    if c == GT then [62]
    else if c == QT then [34]
    else if c == AP then [39]
    else if c == Marked(60) && !flag then LT_REF
    else if c == Marked(62) && !flag then GT_REF
    else if c == Marked(38) && !flag then AMP_REF
    else if c == Marked(34) && !flag then QUOT_REF
    else if c == Marked(39) && !flag then [38, 97, 112, 111, 115, 59]
    else [c % 256]
  }

  /** What has been read, the token it was ended by, and what follows that. */
  datatype Read = Read(s: seq<Byte>, stop: int, rest: seq<Byte>)

  /** The content of an element without elements in it. */
  function ContentOf(w: seq<Byte>, flag: bool, entities: Entities): (r: Option<Read>)
    decreases |w|
  {
    match CharOf(w, entities)
    case None => None
    case Some(t) =>
      if t.c == TT || t.c == EOF then Some(Read([], t.c, t.rest))
      else if t.c == LT || w == [] then None
      else
        match ContentOf(t.rest, flag, entities)
        case None => None
        case Some(r) => Some(Read(Stored(t.c, flag) + r.s, r.stop, r.rest))
  }

  /** What soap_getattrval stores for a token */
  function ValueOf(c: int): Byte {
    if c == LT then 60 else if c == GT then 62 else if c == QT then 34 else if c == AP then 39 else c % 256
  }

  predicate Delimiter(d: int) {
    d == QT || d == AP || d == 32
  }

  /** The token c ends a value with the delimiter d: a quote for itself; a blank, a slash or a bracket for a blank. */
  predicate EndsValue(c: int, d: int) {
    c == d || c == EOF || (d == 32 && (c == GT || c == 9 || c == 10 || c == 13 || c == 47))
  }

  /** What soap_getattrval stores for a token that does not end the value */
  function Shown(c: int): (s: seq<Byte>) {
    if c == TT then [60, 47] else [ValueOf(c)]
  }

  /** A value up to its delimiter. The slash of an end tag is looked at once more. */
  function ValueTo(w: seq<Byte>, d: int, entities: Entities): (r: Option<Read>)
    decreases |w|
  {
    match CharOf(w, entities)
    case None => None
    case Some(t) =>
      if EndsValue(t.c, d) then Some(Read([], t.c, t.rest))
      else if t.c == TT && d == 32 then Some(Read([60], 47, t.rest))
      else
        match ValueTo(t.rest, d, entities)
        case None => None
        case Some(r) => Some(Read(Shown(t.c) + r.s, r.stop, r.rest))
  }
}

/** Text that has been escaped is read back unchanged. */
module TextRoundTrip {
  import opened Bytes
  import opened Escapes
  import opened XmlTokens

  lemma {:induction false} NameRead(name: seq<Byte>, rest: seq<Byte>, n: nat)
    requires |name| < n && 59 !in name
    ensures RefName(name + [59] + rest, n) == Name(name, rest)
  {
    var w := name + [59] + rest;
    if name == [] {
      assert w[1..] == rest;
    } else {
      assert w[0] == name[0] && w[1..] == name[1..] + [59] + rest;
      NameRead(name[1..], rest, n - 1);
    }
  }

  /** A reference is read as the code it stands for. */
  lemma RefRead(name: seq<Byte>, rest: seq<Byte>, entities: Entities)
    requires |name| < 7 && 59 !in name
    ensures TokenOf([38] + name + [59] + rest, entities) == Some(Token(Marked(CodeOf(name, entities)), rest))
  {
    assert ([38] + name + [59] + rest)[1..] == name + [59] + rest;
    NameRead(name, rest, 7);
  }

  /** Section 4.6 of XML 1.0: the names that stand for a char */
  predicate Predefined(name: string, c: char) {
    || (name == "lt" && c == '<') || (name == "gt" && c == '>') || (name == "amp" && c == '&')
    || (name == "quot" && c == '"') || (name == "apos" && c == 39 as char)
  }

  /** They are read as the codes of these, marked by the sign bit. */
  lemma PredefinedRead(name: string, c: char, rest: seq<Byte>, entities: Entities)
    requires Predefined(name, c)
    ensures TokenOf(Letters("&" + name + ";") + rest, entities) == Some(Token(c as int - 0x8000_0000, rest))
  {
    assert Letters("&" + name + ";") + rest == [38] + Letters(name) + [59] + rest;
    NameIsCode(name, c, entities);
    RefRead(Letters(name), rest, entities);
  }

  /** A name that is neither one of these nor in the table is read as the code 127. */
  lemma UnknownRead(name: string, rest: seq<Byte>, entities: Entities)
    requires name != "" && |name| < 7 && 59 !in Letters(name) && name[0] as int % 256 != 35 && Letters(name) !in entities
    requires forall n, c :: Predefined(n, c) ==> Letters(name) != Letters(n)
    ensures TokenOf(Letters("&" + name + ";") + rest, entities) == Some(Token(127 - 0x8000_0000, rest))
  {
    assert Letters("&" + name + ";") + rest == [38] + Letters(name) + [59] + rest;
    assert Predefined("lt", '<') && Predefined("gt", '>') && Predefined("amp", '&') && Predefined("quot", '"');
    assert Predefined("apos", 39 as char);
    NamesInBytes();
    RefRead(Letters(name), rest, entities);
  }

  lemma NamesInBytes()
    ensures Letters("lt") == [108, 116] && Letters("gt") == [103, 116] && Letters("amp") == [97, 109, 112]
    ensures Letters("quot") == [113, 117, 111, 116] && Letters("apos") == [97, 112, 111, 115]
  {
  }

  lemma NameIsCode(name: string, c: char, entities: Entities)
    requires Predefined(name, c)
    ensures CodeOf(Letters(name), entities) == c as int && 59 !in Letters(name)
  {
    NamesInBytes();
  }

  function HexDigit(d: nat, capital: bool): Byte
    requires d < 16
  {
    Letters(if capital then "0123456789ABCDEF" else "0123456789abcdef")[d]
  }

  /** There are no other digits. */
  lemma DigitFrom(c: Byte) returns (d: nat, capital: bool)
    requires DigitOf(c) < 16
    ensures d < 16 && HexDigit(d, capital) == c
  {
    d, capital := DigitOf(c), c < 97;
  }

  /** A code in hexadecimal, in capitals or not */
  function HexText(n: nat, capital: bool): seq<Byte> {
    (if n < 16 then [] else HexText(n / 16, capital)) + [HexDigit(n % 16, capital)]
  }

  predicate AllHex(s: seq<Byte>) {
    forall i :: 0 <= i < |s| ==> DigitOf(s[i]) < 16 && s[i] != 59
  }

  lemma DigitIs(d: nat, capital: bool)
    requires d < 16
    ensures DigitOf(HexDigit(d, capital)) == d && HexDigit(d, capital) != 59
  {
  }

  lemma {:induction false} HexSnoc(s: seq<Byte>, d: Byte, acc: nat)
    requires AllHex(s) && DigitOf(d) < 16
    ensures Number(s + [d], 16, acc) == 16 * Number(s, 16, acc) + DigitOf(d)
  {
    if s == [] {
      assert [] + [d] == [d] && [d][1..] == [];
    } else {
      assert (s + [d])[0] == s[0] && (s + [d])[1..] == s[1..] + [d];
      HexSnoc(s[1..], d, 16 * acc + DigitOf(s[0]));
    }
  }

  lemma {:induction false} HexNumber(n: nat, capital: bool)
    ensures Number(HexText(n, capital), 16, 0) == n && AllHex(HexText(n, capital))
  {
    DigitIs(n % 16, capital);
    if n < 16 {
      HexSnoc([], HexDigit(n % 16, capital), 0);
    } else {
      HexNumber(n / 16, capital);
      HexSnoc(HexText(n / 16, capital), HexDigit(n % 16, capital), 0);
    }
  }

  /** A reference by a number in hexadecimal, of four digits at most, is read as the code with this number. */
  lemma HexReferenceRead(n: nat, capital: bool, rest: seq<Byte>, entities: Entities)
    requires |HexText(n, capital)| <= 4
    ensures TokenOf(Letters(if capital then "&#X" else "&#x") + HexText(n, capital) + Letters(";") + rest, entities) ==
            Some(Token(n - 0x8000_0000, rest))
  {
    var digits := HexText(n, capital);
    var name := [35, if capital then 88 else 120] + digits;
    assert Letters("&#x") == [38, 35, 120] && Letters("&#X") == [38, 35, 88] && Letters(";") == [59];
    HexJoined(if capital then 88 else 120, digits, rest);
    HexNumber(n, capital);
    HexCode(name, digits, n, entities);
    RefRead(name, rest, entities);
  }

  lemma HexJoined(x: Byte, digits: seq<Byte>, rest: seq<Byte>)
    ensures [38, 35, x] + digits + [59] + rest == [38] + ([35, x] + digits) + [59] + rest
  {
  }

  lemma HexCode(name: seq<Byte>, digits: seq<Byte>, n: nat, entities: Entities)
    requires (name == [35, 88] + digits || name == [35, 120] + digits) && AllHex(digits) && Number(digits, 16, 0) == n
    ensures CodeOf(name, entities) == n && 59 !in name
  {
    assert name[2..] == digits;
  }

  predicate AllDigits(s: seq<Byte>) {
    forall i :: 0 <= i < |s| ==> 48 <= s[i] <= 57
  }

  lemma {:induction false} NumberSnoc(s: seq<Byte>, d: Byte, acc: nat)
    requires AllDigits(s) && 48 <= d <= 57
    ensures Number(s + [d], 10, acc) == 10 * Number(s, 10, acc) + (d - 48)
  {
    if s == [] {
      assert [] + [d] == [d] && [d][1..] == [];
    } else {
      assert (s + [d])[0] == s[0] && (s + [d])[1..] == s[1..] + [d];
      NumberSnoc(s[1..], d, 10 * acc + (s[0] - 48));
    }
  }

  lemma {:induction false} DecRead(n: nat)
    ensures Number(Dec(n), 10, 0) == n && AllDigits(Dec(n))
  {
    if n < 10 {
      NumberSnoc([], 48 + n, 0);
      assert [] + [48 + n] == Dec(n);
    } else {
      DecRead(n / 10);
      NumberSnoc(Dec(n / 10), 48 + n % 10, 0);
    }
  }

  function TenTo(k: nat): (n: nat)
    ensures n > 0
  {
    if k == 0 then 1 else 10 * TenTo(k - 1)
  }

  lemma {:induction false} DecLength(n: nat, k: nat)
    requires k > 0
    ensures |Dec(n)| <= k <==> n < TenTo(k)
  {
    if n >= 10 && k > 1 {
      DecLength(n / 10, k - 1);
      assert n < TenTo(k) <==> n / 10 < TenTo(k - 1);
    } else if k == 1 {
      assert TenTo(1) == 10 * TenTo(0);
    }
  }

  lemma HighRead(b: Byte, rest: seq<Byte>, entities: Entities)
    requires b >= 128
    ensures TokenOf(HighByte(b, false) + rest, entities) == Some(Token(Marked(b), rest))
  {
    DecRead(b);
    DecLength(b, 3);
    assert TenTo(3) == 10 * TenTo(2) && TenTo(2) == 10 * TenTo(1) && TenTo(1) == 10 * TenTo(0);
    var name := [35] + Dec(b);
    assert name[1..] == Dec(b) && name[1] == Dec(b)[0];
    assert HighByte(b, false) + rest == [38] + name + [59] + rest;
    RefRead(name, rest, entities);
  }

  lemma HighUtf8Read(b: Byte, rest: seq<Byte>, entities: Entities)
    requires b >= 128
    ensures CharOf(HighByte(b, true) + rest, entities) == Some(Token(b, rest))
  {
    var x, y := 192 + b / 64, 128 + b % 64;
    WideChar([x, y] + rest, entities);
    TwoBytes(x, y, rest);
    HighBits(b);
  }

  lemma TwoBytes(x: Byte, y: Byte, rest: seq<Byte>)
    requires 128 <= x < 224
    ensures Wide([x, y] + rest) == Token(x % 32 * 64 + y % 64, rest)
  {
    assert From([x, y] + rest, 2) == rest;
  }

  lemma HighBits(b: Byte)
    ensures (192 + b / 64) % 32 * 64 + (128 + b % 64) % 64 == b
  {
  }

  /** The token stands for b, and is no end of content or of a quoted value. */
  predicate StandsFor(c: int, b: Byte, flag: bool) {
    c !in [EOF, LT, TT] && Stored(c, true) == [b] && ValueOf(c) == b && (flag ==> c != QT)
  }

  lemma MarkedStands(b: Byte, flag: bool)
    ensures StandsFor(Marked(b), b, flag) && Marked(b) < 128
  {
  }

  lemma PlainRead(b: Byte, flag: bool, canonical: bool, rest: seq<Byte>, entities: Entities)
    requires 0 < b < 128 && Escape(b, flag, canonical) == [b]
    ensures
      var t := TokenOf([b] + rest, entities);
      t.Some? && t.value.rest == rest && t.value.c < 128 && StandsFor(t.value.c, b, flag)
  {
    assert ([b] + rest)[1..] == rest;
  }

  /** What is written for a byte is read as a token that stands for it. */
  lemma EscapeRead(b: Byte, flag: bool, canonical: bool, rest: seq<Byte>, entities: Entities)
    requires b != 0
    ensures
      var t := CharOf(Escape(b, flag, canonical) + rest, entities);
      t.Some? && t.value.rest == rest && StandsFor(t.value.c, b, flag)
  {
    var w := Escape(b, flag, canonical) + rest;
    MarkedStands(b, flag);
    if b >= 128 {
      if canonical {
        HighUtf8Read(b, rest, entities);
      } else {
        HighRead(b, rest, entities);
        TokenIsChar(w, Token(Marked(b), rest), entities);
      }
    } else if Escape(b, flag, canonical) == [b] {
      PlainRead(b, flag, canonical, rest, entities);
      TokenIsChar(w, TokenOf(w, entities).value, entities);
    } else {
      NamedRead(b, flag, canonical, rest, entities);
      TokenIsChar(w, Token(Marked(b), rest), entities);
    }
  }

  lemma HexRead(d: Byte, rest: seq<Byte>, entities: Entities)
    requires d == 57 || d == 65 || d == 68
    ensures TokenOf([38, 35, 120, d, 59] + rest, entities) == Some(Token(Marked(DigitOf(d)), rest))
  {
    var name: seq<Byte> := [35, 120, d];
    assert [38, 35, 120, d, 59] + rest == [38] + name + [59] + rest;
    RefRead(name, rest, entities);
    assert name[2..] == [d] && [d][1..] == [];
    assert Number([d], 16, 0) == Number([], 16, DigitOf(d));
  }

  lemma NamedRead(b: Byte, flag: bool, canonical: bool, rest: seq<Byte>, entities: Entities)
    requires b != 0 && b < 128 && Escape(b, flag, canonical) != [b]
    ensures TokenOf(Escape(b, flag, canonical) + rest, entities) == Some(Token(Marked(b), rest))
  {
    if b == 9 {
      HexRead(57, rest, entities);
    } else if b == 10 {
      HexRead(65, rest, entities);
    } else if b == 13 {
      HexRead(68, rest, entities);
    } else {
      var name: seq<Byte> :=
        if b == 38 then [97, 109, 112] else if b == 60 then [108, 116] else if b == 62 then [103, 116] else [113, 117, 111, 116];
      assert Escape(b, flag, canonical) + rest == [38] + name + [59] + rest;
      RefRead(name, rest, entities);
    }
  }

  /** A token of content that stands for b, and the rest of the content */
  lemma ContentStep(w: seq<Byte>, b: Byte, r: Read, entities: Entities)
    requires w != [] && CharOf(w, entities).Some? && CharOf(w, entities).value.c !in [EOF, LT, TT]
    requires Stored(CharOf(w, entities).value.c, true) == [b] && ContentOf(CharOf(w, entities).value.rest, true, entities) == Some(r)
    ensures ContentOf(w, true, entities) == Some(Read([b] + r.s, r.stop, r.rest))
  {
  }

  lemma QuotedStep(w: seq<Byte>, b: Byte, r: Read, entities: Entities)
    requires w != [] && CharOf(w, entities).Some? && CharOf(w, entities).value.c !in [EOF, QT, TT]
    requires ValueOf(CharOf(w, entities).value.c) == b && ValueTo(CharOf(w, entities).value.rest, QT, entities) == Some(r)
    ensures ValueTo(w, QT, entities) == Some(Read([b] + r.s, r.stop, r.rest))
  {
  }

  lemma FirstEscape(s: seq<Byte>, flag: bool, canonical: bool, end: seq<Byte>)
    requires s != [] && 0 !in s
    ensures EscapeAll(s, flag, canonical) + end == Escape(s[0], flag, canonical) + (EscapeAll(s[1..], flag, canonical) + end)
    ensures EscapeAll(s, flag, canonical) + end != [] && 0 !in s[1..] && s == [s[0]] + s[1..]
  {
    var e, more := Escape(s[0], flag, canonical), EscapeAll(s[1..], flag, canonical);
    assert (e + more) + end == e + (more + end);
  }

  lemma EndTagRead(rest: seq<Byte>, entities: Entities)
    ensures TokenOf([60, 47] + rest, entities) == Some(Token(TT, rest))
  {
    var end := [60, 47] + rest;
    assert end[1..] == [47] + rest && ([47] + rest)[1..] == rest;
  }

  /** Character data followed by an end tag is read back, and reading stops at that tag. */
  lemma {:induction false} ContentReadBack(s: seq<Byte>, canonical: bool, rest: seq<Byte>, entities: Entities)
    requires 0 !in s
    ensures ContentOf(EscapeAll(s, false, canonical) + ([60, 47] + rest), true, entities) == Some(Read(s, TT, rest))
  {
    var end := [60, 47] + rest;
    if s == [] {
      assert EscapeAll(s, false, canonical) + end == end;
      EndTagRead(rest, entities);
    } else {
      var more := EscapeAll(s[1..], false, canonical) + end;
      FirstEscape(s, false, canonical, end);
      EscapeRead(s[0], false, canonical, more, entities);
      ContentReadBack(s[1..], canonical, rest, entities);
      ContentStep(Escape(s[0], false, canonical) + more, s[0], Read(s[1..], TT, rest), entities);
    }
  }

  /** An attribute value and its closing quote are read back. */
  lemma {:induction false} QuotedReadBack(s: seq<Byte>, canonical: bool, rest: seq<Byte>, entities: Entities)
    requires 0 !in s
    ensures ValueTo(EscapeAll(s, true, canonical) + ([34] + rest), QT, entities) == Some(Read(s, QT, rest))
  {
    var end := [34] + rest;
    if s == [] {
      assert EscapeAll(s, true, canonical) + end == end && end[1..] == rest;
    } else {
      var more := EscapeAll(s[1..], true, canonical) + end;
      FirstEscape(s, true, canonical, end);
      EscapeRead(s[0], true, canonical, more, entities);
      QuotedReadBack(s[1..], canonical, rest, entities);
      QuotedStep(Escape(s[0], true, canonical) + more, s[0], Read(s[1..], QT, rest), entities);
    }
  }
}

/** soap_get, soap_getutf8, soap_string_in and soap_getattrval. */
module XmlReading {
  import opened Bytes
  import opened Limits
  import opened Outputs
  import opened Escapes
  import opened BlockLists
  import opened XmlTokens
  import opened TextRoundTrip


  /** The reader fields of struct soap for text; input is what is still to be read. */
  class XmlReader {
    var input: seq<Byte>
    var ahead: int
    var cdata: bool
    const entities: Entities

    constructor (text: seq<Byte>, entities: Entities)
      ensures input == text && Fresh() && this.entities == entities
    {
      input, ahead, cdata, this.entities := text, 0, false, entities;
    }

    /** Between tokens, with nothing put back. */
    ghost predicate Fresh()
      reads this
    {
      ahead == 0 && !cdata
    }

    /** What is left to read, for termination. */
    ghost function Left(): nat
      reads this
    {
      2 * |input| + (if ahead == 0 || ahead == EOF then 0 else 1)
    }

    /** soap_get1 */
    method Get1() returns (c: int)
      modifies this`input
      ensures old(input) == [] ==> c == EOF && input == []
      ensures old(input) != [] ==> c == old(input)[0] && input == old(input)[1..]
    {
      if input == [] {
        return EOF;
      }
      c, input := input[0], input[1..];
    }

    /** soap_revget1, after a char c has been got */
    method Revget1(c: int)
      requires c == EOF || 0 <= c < 256
      modifies this`input
      ensures input == (if c == EOF then old(input) else [c] + old(input))
    {
      if c != EOF {
        input := [c] + input;
      }
    }

    /** The loop over blanks after an opening bracket */
    method GetNonBlank() returns (c: int)
      modifies this`input
      ensures
        var r := SkipBlanks(old(input));
        if r == [] then c == EOF && input == [] else c == r[0] && input == r[1..]
      ensures |input| <= old(|input|) && (c != EOF ==> |input| < old(|input|) && 0 <= c < 256)
    {
      c := Get1();
      while IsBlank(c)
        invariant if SkipBlanks(old(input)) == [] then c == EOF || IsBlank(c) else true
        invariant c == EOF ==> input == [] && SkipBlanks(old(input)) == []
        invariant c != EOF ==> 0 <= c < 256 && SkipBlanks(old(input)) == SkipBlanks([c] + input) && |input| < old(|input|)
        decreases |input|, if c == EOF then 0 else 1
      {
        ghost var w := [c] + input;
        assert w[1..] == input;
        ghost var was := input;
        c := Get1();
        assert c != EOF ==> was == [c] + input;
      }
      assert c != EOF ==> ([c] + input)[1..] == input;
    }

    /** soap_char */
    method Char() returns (code: nat)
      modifies this`input
      ensures
        var n := RefName(old(input), 7);
        code == CodeOf(n.chars, entities) && input == n.rest
      ensures |input| <= old(|input|)
    {
      var tmp: seq<Byte> := [];
      var i := 0;
      var more := true;
      while i < 7 && more
        invariant 0 <= i <= 7 && |input| <= old(|input|)
        invariant more ==> RefName(old(input), 7) == Name(tmp + RefName(input, 7 - i).chars, RefName(input, 7 - i).rest)
        invariant !more ==> RefName(old(input), 7) == Name(tmp, input)
        decreases 7 - i, more
      {
        ghost var w := input;
        var c := Get1();
        if c == 59 || c == EOF {
          more := false;
          assert tmp + [] == tmp;
        } else {
          assert tmp + ([w[0]] + RefName(w[1..], 7 - i - 1).chars) == (tmp + [w[0]]) + RefName(w[1..], 7 - i - 1).chars;
          tmp := tmp + [c];
          i := i + 1;
        }
      }
      assert tmp + [] == tmp;
      code := CodeOf(tmp, entities);
    }

    /** The char that is looked at, and the input behind it */
    ghost function With(c: int): seq<Byte>
      requires c == EOF || 0 <= c < 256
      reads this
    {
      if c == EOF then [] else [c] + input
    }

    /** A char that has been got: at the end of the input it is EOF. */
    ghost predicate Got(c: int)
      reads this
    {
      if c == EOF then input == [] else 0 <= c < 256
    }

    /** The end of a CDATA section: after a bracket, another one ends it and the char behind it is next. */
    method EndCdata() returns (done: bool, c: int)
      modifies this`input, this`cdata
      ensures |input| <= old(|input|) && done == !(old(input) != [] && old(input)[0] == 93)
      ensures done ==> c == 93 && cdata == old(cdata) && input == old(input)
      ensures !done ==> !cdata && Got(c) && With(c) == From(old(input), 2)
    {
      c := Get1();
      if c == 93 {
        cdata := false;
        c := Get1();
        c := Get1();
        return false, c;
      }
      Revget1(c);
      return true, 93;
    }

    /** The loop in a comment: up to the second of two dashes, or the end */
    method ToDashes(c0: int) returns (c: int)
      requires Got(c0) && c0 != EOF
      modifies this`input
      ensures |input| <= old(|input|) && Got(c) && With(c) == CommentEnd(old(With(c0)))
    {
      c := c0;
      var more := true;
      while more
        invariant |input| <= old(|input|) && Got(c) && (more ==> c != EOF)
        invariant CommentEnd(old(With(c0))) == if more then CommentEnd(With(c)) else With(c)
        decreases |input|, more
      {
        ghost var v := With(c);
        c := Next(c, v);
        if c == 45 {
          c := Next(c, v[1..]);
          if c == 45 {
            break;
          }
        }
        more := c != EOF;
      }
    }

    /** A comment, from the first dash on */
    method SkipComment(c0: int) returns (c: int)
      requires Got(c0)
      modifies this`input
      ensures |input| <= old(|input|) && Got(c) && With(c) == CommentSkipped(old(With(c0)))
    {
      c := c0;
      if c == 45 {
        ghost var v := With(c);
        c := Get1();
        assert v[1..] == With(c);
        if c == 45 {
          c := ToDashes(c);
        }
      }
    }

    /** The rest of a declaration, comment or instruction, which may contain others: up to its bracket. */
    method SkipMarkup(c0: int) returns (c: int)
      requires Got(c0)
      modifies this`input
      ensures |input| <= old(|input|) && Got(c) && With(c) == MarkupEnd(old(With(c0)), 1)
    {
      c := c0;
      var k := 1;
      while c != EOF
        invariant |input| <= old(|input|) && Got(c)
        invariant MarkupEnd(old(With(c0)), 1) == MarkupEnd(With(c), k)
        decreases |input|, c != EOF
      {
        ghost var v := With(c);
        if c == 60 {
          k := k + 1;
        } else if c == 62 {
          k := k - 1;
          if k <= 0 {
            break;
          }
        }
        c := Get1();
        assert v[1..] == With(c);
      }
    }

    /** The start of a CDATA section: up to its second bracket. */
    method StartCdata() returns (c: int)
      modifies this`input
      ensures |input| <= old(|input|) && Got(c) && With(c) == FromBracket(old(input))
    {
      c := Get1();
      assert With(c) == old(input);
      while c != EOF && c != 91
        invariant |input| <= old(|input|) && Got(c) && FromBracket(old(input)) == FromBracket(With(c))
        decreases |input|, c != EOF
      {
        ghost var v := With(c);
        c := Get1();
        assert v[1..] == With(c);
      }
    }

    /** What follows an opening bracket: a token, or after something that is skipped the next char. */
    method Bracket() returns (token: bool, c: int)
      requires !cdata
      modifies this`input, this`cdata
      ensures |input| <= old(|input|) && (!token ==> |input| < old(|input|) && Got(c))
      ensures token ==> Opens(old(input)) == Begins(c, input) && !cdata
      ensures !token ==> Opens(old(input)) == Skipped(With(c), cdata)
    {
      ghost var r := SkipBlanks(input);
      c := GetNonBlank();
      assert c != EOF ==> [c] + input == r;
      if c == 33 || c == 63 || c == 37 {
        if c == 33 {
          c := Get1();
          assert r[1..] == With(c);
          if c == 91 {
            assert r[2..] == input;
            c := StartCdata();
            if c == EOF {
              return true, EOF;
            }
            cdata := true;
            c := Next(c, FromBracket(r[2..]));
            return false, c;
          }
          c := SkipComment(c);
        }
        ghost var m := MarkupEnd(With(c), 1);
        c := SkipMarkup(c);
        if c == EOF {
          return true, EOF;
        }
        c := Next(c, m);
        return false, c;
      }
      if c == 47 {
        return true, TT;
      }
      Revget1(c);
      return true, LT;
    }

    /** The char after the one that is looked at */
    method Next(c0: int, ghost v: seq<Byte>) returns (c: int)
      requires Got(c0) && c0 != EOF && v == With(c0)
      modifies this`input
      ensures |input| <= old(|input|) && Got(c) && With(c) == v[1..]
    {
      c := Get1();
    }

    /** soap_get */
    method Get() returns (c: int)
      modifies this`input, this`ahead, this`cdata
      ensures Left() <= old(Left()) && (c != EOF ==> Left() < old(Left()))
      ensures |input| <= old(|input|) && ahead == 0
      ensures old(ahead) == 0 ==> Scanned(c, input, cdata) == Scan(old(input), old(cdata), entities)
      ensures old(Fresh()) && TokenOf(old(input), entities).Some? ==>
                Fresh() && Token(c, input) == TokenOf(old(input), entities).value
      ensures old(ahead) == 47 && !old(cdata) ==> c == 47 && Fresh() && input == old(input)
    {
      TokenScanned(input, entities);
      c := ahead;
      if c != 0 {
        ahead := 0;
        c := GetFrom(c);
      } else {
        c := Get1();
        assert With(c) == old(input);
        c := GetFrom(c);
      }
    }

    /** What counts as got from the char c on */
    ghost predicate GotOn(c: int, left: nat)
      reads this
    {
      if c == EOF then 2 * |input| <= left else 2 * |input| < left
    }

    /** The loop of soap_get from the char c0 on */
    method GetFrom(c0: int) returns (c: int)
      modifies this`input, this`cdata
      ensures |input| <= old(|input|) && GotOn(c, 2 * old(|input|) + if c0 == EOF then 0 else 1)
      ensures old(Got(c0)) ==> Scanned(c, input, cdata) == Scan(old(With(c0)), old(cdata), entities)
      ensures c0 == 47 && !old(cdata) ==> c == 47 && !cdata && input == old(input)
    {
      ghost var got := Got(c0);
      ghost var all := if got then Scan(With(c0), cdata, entities) else Scanned(EOF, [], false);
      c := c0;
      while true
        invariant |input| <= old(|input|) && GotOn(c, 2 * old(|input|) + if c0 == EOF then 0 else 1)
        invariant got ==> Got(c) && all == Scan(With(c), cdata, entities)
        invariant c0 == 47 && !old(cdata) ==> c == 47 && !cdata && input == old(input)
        decreases |input|, cdata
      {
        ghost var w := if got then With(c) else [];
        assert got && c != EOF ==> w[1..] == input;
        if cdata {
          if c == 93 {
            var done;
            ghost var behind := input;
            done, c := EndCdata();
            if done {
              return;
            }
            assert got ==> From(w, 3) == From(behind, 2);
          } else {
            return;
          }
        }
        ghost var v := if got then With(c) else [];
        assert got && c != EOF ==> v[1..] == input;
        if c == 60 {
          var token;
          token, c := Bracket();
          if token {
            return;
          }
        } else if c == 62 {
          return GT;
        } else if c == 34 {
          return QT;
        } else if c == 39 {
          return AP;
        } else if c == 38 {
          var code := Char();
          return Marked(code);
        } else {
          return;
        }
      }
    }

    /** The low six bits of the next byte */
    method GetSix(ghost w: seq<Byte>, ghost i: nat) returns (c: nat)
      modifies this`input
      ensures |input| <= old(|input|)
      ensures old(input) == From(w, i) ==> c == Tail6(w, i) && input == From(w, i + 1)
    {
      var b := Get1();
      c := b % 64;
    }

    /** The rest of a char whose first two bytes are c and c1 */
    method GetWide(c: nat, c1: nat, ghost w: seq<Byte>) returns (r: int)
      modifies this`input
      ensures |input| <= old(|input|) && r >= 0
      ensures |w| >= 2 && c == w[0] && c1 == w[1] % 64 && old(input) == From(w, 2) ==> Token(r, input) == Wide(w)
    {
      if c < 224 {
        return c % 32 * 64 + c1;
      }
      var c2 := GetSix(w, 2);
      if c < 240 {
        return (c % 16 * 64 + c1) * 64 + c2;
      }
      var c3 := GetSix(w, 3);
      if c < 248 {
        return ((c % 8 * 64 + c1) * 64 + c2) * 64 + c3;
      }
      var c4 := GetSix(w, 4);
      if c < 252 {
        return (((c % 4 * 64 + c1) * 64 + c2) * 64 + c3) * 64 + c4;
      }
      var c5 := GetSix(w, 5);
      return ((((c % 2 * 64 + c1) * 64 + c2) * 64 + c3) * 64 + c4) * 64 + c5;
    }

    /** soap_getutf8 */
    method GetUtf8() returns (c: int)
      modifies this`input, this`ahead, this`cdata
      ensures Left() <= old(Left()) && (c != EOF ==> Left() < old(Left()))
      ensures old(Fresh()) && CharOf(old(input), entities).Some? ==>
                Fresh() && Token(c, input) == CharOf(old(input), entities).value
      ensures old(ahead) == 47 && !old(cdata) ==> c == 47 && Fresh() && input == old(input)
      ensures
        var s := Scan(old(input), old(cdata), entities);
        var t := Scan(s.rest, s.cdata, entities);
        old(ahead) == 0 && s.c >= 128 && t.c < 128 ==> c == s.c && ahead == t.c && input == t.rest && cdata == t.cdata
    {
      c := Get();
      if c < 128 {
        return;
      }
      ghost var behind := input;
      if behind != [] && behind[0] >= 128 {
        HighToken(behind, entities);
      }
      var c1 := Get();
      if c1 < 128 {
        ahead := c1;
        return;
      }
      ghost var w := if c < 256 then [c] + behind else [];
      assert |w| >= 2 ==> behind[1..] == From(w, 2);
      c := GetWide(c, c1 % 64, w);
    }

    /** The cases of soap_string_in that only store: the first byte, and those still to come */
    method Store(c: int, flag: bool) returns (b: Byte, t: seq<Byte>)
      ensures [b] + t == Stored(c, flag)
    {
      t := [];
      if c == GT {
        b := 62;
      } else if c == QT {
        b := 34;
      } else if c == AP {
        b := 39;
      } else if c == Marked(60) && !flag {
        b, t := 38, [108, 116, 59];
      } else if c == Marked(62) && !flag {
        b, t := 38, [103, 116, 59];
      } else if c == Marked(38) && !flag {
        b, t := 38, [97, 109, 112, 59];
      } else if c == Marked(34) && !flag {
        b, t := 38, [113, 117, 111, 116, 59];
      } else if c == Marked(39) && !flag {
        b, t := 38, [97, 112, 111, 115, 59];
      } else {
        b := c % 256;
      }
    }

    /** The text so far is s0, and what is left to read gives the rest of all. */
    ghost predicate OnTheWay(all: Option<Read>, s0: seq<Byte>, flag: bool)
      reads this
    {
      && Fresh() && all.Some? && ContentOf(input, flag, entities).Some?
      && var r := ContentOf(input, flag, entities).value;
         all.value == Read(s0 + r.s, r.stop, r.rest)
    }

    /** The switch of soap_string_in for the next char, n elements deep: the byte to store and those that
        are to follow it, unless the text is done. */
    method NextByte(flag: bool, n0: nat, ghost all: Option<Read>, ghost s0: seq<Byte>, ghost clean: bool)
      returns (done: bool, c: int, b: Byte, t: seq<Byte>, n: nat)
      requires clean ==> n0 == 0 && OnTheWay(all, s0, flag)
      modifies this
      ensures !done ==> Left() < old(Left())
      ensures clean && !done ==> n == 0 && OnTheWay(all, s0 + [b] + t, flag)
      ensures clean && done ==> all.value == Read(s0, c, input) && Fresh()
      ensures c == 47 && n0 > 0 ==> b == 47 && n == if ahead == GT then n0 - 1 else n0
    {
      ghost var w := input;
      c := GetUtf8();
      b, t, n := 60, [], n0;
      if (c == TT && n == 0) || c == EOF {
        assert clean ==> s0 + [] == s0;
        return true, c, b, t, n;
      }
      if c == TT {
        n := n - 1;
        t := [47];
      } else if c == LT {
        n := n + 1;
      } else if c == 47 && n > 0 {
        var d := Get();
        if d == GT {
          n := n - 1;
        }
        ahead := d;
        b := 47;
      } else {
        b, t := Store(c, flag);
        if clean {
          NextStored(w, flag, s0, b, t);
        }
      }
      done := false;
    }

    /** A byte that is to follow, or the next char */
    method NextOrStored(flag: bool, t0: seq<Byte>, n0: nat, ghost all: Option<Read>, ghost s0: seq<Byte>, ghost clean: bool)
      returns (done: bool, c: int, b: Byte, t: seq<Byte>, n: nat)
      requires clean ==> n0 == 0 && OnTheWay(all, s0 + t0, flag)
      modifies this
      ensures !done ==> Left() < old(Left()) || (Left() == old(Left()) && |t| < |t0|)
      ensures clean && !done ==> n == 0 && OnTheWay(all, s0 + [b] + t, flag)
      ensures clean && done ==> all.value == Read(s0, c, input) && Fresh()
    {
      if t0 != [] {
        FirstMoves(s0, t0);
        return false, EOF, t0[0], t0[1..], n0;
      }
      assert s0 + t0 == s0;
      done, c, b, t, n := NextByte(flag, n0, all, s0, clean);
    }

    /** One round of soap_string_in */
    method Collect(blocks: BlockList, flag: bool, i0: nat, t0: seq<Byte>, n0: nat, ghost all: Option<Read>, ghost clean: bool)
      returns (done: bool, c: int, i: nat, t: seq<Byte>, n: nat)
      requires Collecting(blocks, i0) && (clean ==> n0 == 0 && OnTheWay(all, blocks.UpTo(i0) + t0, flag))
      modifies this, blocks
      ensures Collecting(blocks, i)
      ensures !done ==> Left() < old(Left()) || (Left() == old(Left()) && |t| < |t0|)
      ensures clean && !done ==> n == 0 && OnTheWay(all, blocks.UpTo(i) + t, flag)
      ensures clean && done ==> all.value == Read(blocks.UpTo(i), c, input) && Fresh()
      ensures done ==> i < SOAP_BLKLEN
    {
      i := blocks.Room(SOAP_BLKLEN, i0);
      var b;
      done, c, b, t, n := NextOrStored(flag, t0, n0, all, blocks.UpTo(i), clean);
      if !done {
        blocks.Write(i, b);
        i := i + 1;
      }
    }

    lemma FirstMoves(s: seq<Byte>, t: seq<Byte>)
      requires t != []
      ensures s + t == (s + [t[0]]) + t[1..]
    {
    }

    ghost predicate Collecting(blocks: BlockList, i: nat)
      reads blocks
    {
      blocks.Valid() && blocks.list != [] && |blocks.heap[blocks.ptr].data| == SOAP_BLKLEN && i <= SOAP_BLKLEN
    }

    /** soap_string_in: the content of an element, and of the elements in it */
    method StringIn(flag: bool) returns (s: seq<Byte>)
      modifies this
      ensures
        var all := ContentOf(old(input), flag, entities);
        old(Fresh()) && all.Some? ==> all.value == Read(s, ahead, input) && !cdata
    {
      ghost var all := ContentOf(input, flag, entities);
      ghost var clean := Fresh() && all.Some?;
      var blocks := new BlockList();
      blocks.Push(SOAP_BLKLEN);
      var i: nat, n: nat, t: seq<Byte> := 0, 0, [];
      var c, done := EOF, false;
      if clean {
        StartOnTheWay(all, blocks.UpTo(0), flag);
      }
      while !done
        invariant fresh(blocks) && Collecting(blocks, i) && (done ==> i < SOAP_BLKLEN)
        invariant clean && !done ==> n == 0 && OnTheWay(all, blocks.UpTo(i) + t, flag)
        invariant clean && done ==> all.value == Read(blocks.UpTo(i), c, input) && Fresh()
        decreases !done, Left(), |t|
      {
        done, c, i, t, n := Collect(blocks, flag, i, t, n, all, clean);
      }
      ahead := c;
      var memory := Finish(blocks, i);
      s := memory[..|memory| - 1];
    }

    /** The end of soap_string_in: a NUL, the newest block cut behind it, and all blocks put together */
    method Finish(blocks: BlockList, i: nat) returns (s: seq<Byte>)
      requires blocks.Valid() && blocks.list != [] && i < |blocks.heap[blocks.ptr].data|
      modifies blocks
      ensures s == old(blocks.UpTo(i)) + [0]
    {
      blocks.Write(i, 0);
      blocks.Cut(i + 1);
      s := blocks.Save();
    }

    lemma StartOnTheWay(all: Option<Read>, s0: seq<Byte>, flag: bool)
      requires Fresh() && all == ContentOf(input, flag, entities) && all.Some? && s0 == []
      ensures OnTheWay(all, s0 + [], flag)
    {
      assert (s0 + []) + all.value.s == all.value.s;
    }

    lemma NextStored(w: seq<Byte>, flag: bool, s0: seq<Byte>, b: Byte, t: seq<Byte>)
      requires ContentOf(w, flag, entities).Some? && CharOf(w, entities).Some?
      requires CharOf(w, entities).value.c !in [TT, EOF] && [b] + t == Stored(CharOf(w, entities).value.c, flag)
      ensures
        var rest := CharOf(w, entities).value.rest;
        && ContentOf(rest, flag, entities).Some?
        && var r := ContentOf(rest, flag, entities).value;
           ContentOf(w, flag, entities).value == Read([b] + t + r.s, r.stop, r.rest)
           && s0 + ([b] + t + r.s) == (s0 + [b]) + t + r.s
    {
      var r := ContentOf(CharOf(w, entities).value.rest, flag, entities).value;
      Regroup(s0, [b] + t, r.s);
      Regroup(s0, [b], t);
    }

    /** The switch of soap_getattrval: the byte to store for a char, or the end of the value */
    method ValueByte(d: int, c: int, s: seq<Byte>) returns (ended: bool, v: Value, b: Byte)
      modifies this`ahead
      ensures Delimiter(d) ==> (ended <==> EndsValue(c, d))
      ensures Delimiter(d) && ended ==>
                v == (if c == EOF then AtEof else Ok(s)) && ahead == if d == 32 && c != EOF then c else old(ahead)
      ensures !ended && c != TT ==> b == ValueOf(c) && ahead == old(ahead)
      ensures !ended && c == TT ==> b == 60 && ahead == 47
      ensures c == EOF ==> ahead == old(ahead)
    {
      ended, v, b := false, Ok(s), 60;
      if c == TT {
        ahead := 47;
      } else if c == LT {
        b := 60;
      } else if c == GT {
        if d == 32 {
          ahead := c;
          ended := true;
        }
        b := 62;
      } else if c == QT {
        ended, b := c == d, 34;
      } else if c == AP {
        ended, b := c == d, 39;
      } else {
        if (c == 9 || c == 10 || c == 13 || c == 32 || c == 47) && d == 32 {
          ahead := c;
          return true, v, b;
        }
        if c == EOF {
          return true, AtEof, b;
        }
        b := c % 256;
      }
    }

    /** One turn of the loop of soap_getattrval */
    method NextInValue(d: int, s: seq<Byte>, ghost all: Option<Read>, ghost clean: bool) returns (ended: bool, v: Value, b: Byte)
      requires clean ==> InValue(all, s, d)
      modifies this
      ensures clean && !ended ==> InValue(all, s + [b], d)
      ensures clean && ended ==> all.value.s == s && Ended(v, all.value, d)
      ensures Left() <= old(Left())
    {
      ghost var w, from := input, ahead;
      var c := GetUtf8();
      if clean && from == 0 && !EndsValue(c, d) {
        NextValue(w, d, s);
      }
      assert clean ==> s + [] == s;
      ended, v, b := ValueByte(d, c, s);
    }

    /** soap_getattrval: a value into a buffer of n bytes, up to the delimiter d */
    method GetAttrVal(n: nat, d: int) returns (v: Value)
      modifies this
      ensures
        Delimiter(d) && old(Fresh()) && ValueTo(old(input), d, entities).Some? ==>
          var r := ValueTo(old(input), d, entities).value;
          if |r.s| < n then Ended(v, r, d) else v == TooLong
      ensures Left() <= old(Left())
    {
      ghost var all := ValueTo(input, d, entities);
      ghost var clean := Delimiter(d) && Fresh() && all.Some?;
      var s: seq<Byte> := [];
      var i := 0;
      if clean {
        assert [] + all.value.s == all.value.s;
      }
      while i < n
        invariant 0 <= i <= n && |s| == i && Left() <= old(Left())
        invariant clean ==> InValue(all, s, d)
      {
        var ended, b;
        ended, v, b := NextInValue(d, s, all, clean);
        if ended {
          return;
        }
        s := s + [b];
        i := i + 1;
      }
      return TooLong;
    }

    /** The value has been read, and without quotes the char that ends it is looked ahead. */
    ghost predicate Ended(v: Value, r: Read, d: int)
      reads this
    {
      if r.stop == EOF then v == AtEof
      else v == Ok(r.s) && input == r.rest && !cdata && ahead == if d == 32 then r.stop else 0
    }

    /** The value so far is s0, and what is left to read gives the rest of all. */
    ghost predicate InValue(all: Option<Read>, s0: seq<Byte>, d: int)
      reads this
    {
      && !cdata && Delimiter(d) && all.Some?
      && if ahead == 0 then OnTo(all.value, s0, input, d)
         else ahead == 47 && if d == 32 then all.value == Read(s0, 47, input) else OnTo(all.value, s0 + [47], input, d)
    }

    ghost predicate OnTo(all: Read, s0: seq<Byte>, w: seq<Byte>, d: int) {
      var r := ValueTo(w, d, entities);
      r.Some? && all == Read(s0 + r.value.s, r.value.stop, r.value.rest)
    }

    lemma NextValue(w: seq<Byte>, d: int, s0: seq<Byte>)
      requires ValueTo(w, d, entities).Some?
      ensures CharOf(w, entities).Some?
      ensures
        var t, r := CharOf(w, entities).value, ValueTo(w, d, entities).value;
        !EndsValue(t.c, d) ==>
          if t.c == TT && d == 32 then Read(s0 + r.s, r.stop, r.rest) == Read(s0 + [60], 47, t.rest)
          else OnTo(Read(s0 + r.s, r.stop, r.rest), if t.c == TT then (s0 + [60]) + [47] else s0 + [ValueOf(t.c)], t.rest, d)
    {
      var t := CharOf(w, entities).value;
      if !EndsValue(t.c, d) && !(t.c == TT && d == 32) {
        var r := ValueTo(t.rest, d, entities).value;
        Regroup(s0, Shown(t.c), r.s);
        assert [60, 47] == [60] + [47];
        Regroup(s0, [60], [47]);
      }
    }
  }

  /** What soap_getattrval returns: the value, SOAP_EOF, or SOAP_EOM when it does not fit. */
  datatype Value = Ok(s: seq<Byte>) | AtEof | TooLong

  /** Text written as the content of an element is read back unchanged in either mode, and reading stops at the end
      tag. */
  method WriteAndReadText(s: seq<Byte>, canonical: bool, rest: seq<Byte>, entities: Entities)
    returns (got: seq<Byte>, ahead: int, left: seq<Byte>)
    requires 0 !in s
    ensures got == s && ahead == TT && left == rest
  {
    var out := new Output(false);
    StringOut(out, s, false, canonical);
    assert out.sent == EscapeAll(s, false, canonical);
    var reader := new XmlReader(out.sent + ([60, 47] + rest), entities);
    ContentReadBack(s, canonical, rest, entities);
    got := reader.StringIn(true);
    ahead, left := reader.ahead, reader.input;
  }

  /** Text written as an attribute value is read back unchanged when it fits in the buffer, and only then. */
  method WriteAndReadValue(s: seq<Byte>, canonical: bool, rest: seq<Byte>, n: nat, entities: Entities)
    returns (v: Value)
    requires 0 !in s
    ensures v == if |s| < n then Ok(s) else TooLong
  {
    var out := new Output(false);
    StringOut(out, s, true, canonical);
    assert out.sent == EscapeAll(s, true, canonical);
    var reader := new XmlReader(out.sent + ([34] + rest), entities);
    QuotedReadBack(s, canonical, rest, entities);
    v := reader.GetAttrVal(n, QT);
  }
}
