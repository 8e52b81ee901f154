/** Runs of calls, whatever the state is that they work on. */
module CallRuns {
  import opened Bytes

  /** A caller goes by what the calls so far have returned. */
  type Client<Op> = seq<int> -> Option<Op>

  /** What a call does: the new state, what it writes, and what it returns. */
  datatype Move<S> = Move(next: S, text: seq<Byte>, result: int)

  datatype Pass<S> = Pass(state: S, text: seq<Byte>, results: seq<int>)

  function Extend<S>(p: Pass<S>, m: Move<S>): Pass<S> {
    Pass(m.next, p.text + m.text, p.results + [m.result])
  }

  /** The first n calls of a client. */
  function Run<S, Op>(step: (S, Op) -> Move<S>, client: Client<Op>, n: nat, p: Pass<S>): Pass<S> {
    if n == 0 || client(p.results).None? then p
    else Run(step, client, n - 1, Extend(p, step(p.state, client(p.results).value)))
  }

  ghost predicate StepKeeps<S, Op>(step: (S, Op) -> Move<S>, kept: (S, S) -> bool, s: S, op: Op) {
    kept(s, step(s, op).next)
  }

  ghost predicate Chaining<S>(kept: (S, S) -> bool, a: S, b: S, c: S) {
    kept(a, b) && kept(b, c) ==> kept(a, c)
  }

  lemma {:induction false} RunKeeps<S(!new), Op(!new)>(
      step: (S, Op) -> Move<S>, kept: (S, S) -> bool, client: Client<Op>, n: nat, p: Pass<S>)
    requires forall s :: kept(s, s)
    requires forall a, b, c {:trigger Chaining(kept, a, b, c)} :: Chaining(kept, a, b, c)
    requires forall s, op {:trigger StepKeeps(step, kept, s, op)} :: StepKeeps(step, kept, s, op)
    ensures kept(p.state, Run(step, client, n, p).state)
  {
    if n > 0 && client(p.results).Some? {
      var op := client(p.results).value;
      var q := Extend(p, step(p.state, op));
      assert StepKeeps(step, kept, p.state, op);
      RunKeeps(step, kept, client, n - 1, q);
      assert Chaining(kept, p.state, q.state, Run(step, client, n - 1, q).state);
    }
  }

  /** Two steps from related states, the first of which stays within bounds, write and return the same. */
  ghost predicate StepsAlike<S, Op>(
      step1: (S, Op) -> Move<S>, step2: (S, Op) -> Move<S>, rel: (S, S) -> bool, within: S -> bool, s1: S, s2: S, op: Op) {
    rel(s1, s2) && within(s1) && within(step1(s1, op).next) ==>
      && step1(s1, op).text == step2(s2, op).text && step1(s1, op).result == step2(s2, op).result
      && rel(step1(s1, op).next, step2(s2, op).next)
  }

  /** A state is within bounds if a later one is. */
  ghost predicate Backward<S>(kept: (S, S) -> bool, within: S -> bool, s: S, t: S) {
    kept(s, t) && within(t) ==> within(s)
  }

  /** Runs from related states write and return the same, if the first ends within bounds. */
  lemma {:induction false} RunsAlike<S(!new), Op(!new)>(
      step1: (S, Op) -> Move<S>, step2: (S, Op) -> Move<S>, rel: (S, S) -> bool, kept: (S, S) -> bool,
      within: S -> bool, client: Client<Op>, n: nat, p1: Pass<S>, p2: Pass<S>)
    requires forall s :: kept(s, s)
    requires forall a, b, c {:trigger Chaining(kept, a, b, c)} :: Chaining(kept, a, b, c)
    requires forall s, op {:trigger StepKeeps(step1, kept, s, op)} :: StepKeeps(step1, kept, s, op)
    requires forall s, t {:trigger Backward(kept, within, s, t)} :: Backward(kept, within, s, t)
    requires forall s1, s2, op {:trigger StepsAlike(step1, step2, rel, within, s1, s2, op)} ::
               StepsAlike(step1, step2, rel, within, s1, s2, op)
    requires rel(p1.state, p2.state) && p1.text == p2.text && p1.results == p2.results
    requires within(Run(step1, client, n, p1).state)
    ensures Run(step1, client, n, p1).text == Run(step2, client, n, p2).text
    ensures Run(step1, client, n, p1).results == Run(step2, client, n, p2).results
  {
    if n > 0 && client(p1.results).Some? {
      var op := client(p1.results).value;
      var q1, q2 := Extend(p1, step1(p1.state, op)), Extend(p2, step2(p2.state, op));
      var last := Run(step1, client, n, p1).state;
      RunKeeps(step1, kept, client, n, p1);
      RunKeeps(step1, kept, client, n - 1, q1);
      assert Backward(kept, within, p1.state, last) && Backward(kept, within, q1.state, last);
      assert StepsAlike(step1, step2, rel, within, p1.state, p2.state, op);
      RunsAlike(step1, step2, rel, kept, within, client, n - 1, q1, q2);
    }
  }
}

/** The output calls of nPVR/stdsoap2.cpp that both passes make: the counting pass after soap_begin_count,
    which finds the length of a message, and the sending pass after soap_begin_send. */
module TwoPasses {
  import opened Bytes
  import opened Chains
  import opened Graphs
  import opened Attributes
  import opened Outputs
  import opened Escapes
  import opened CallRuns

  const SPACE: seq<Byte> := [32]
  const EQUALS: seq<Byte> := [61, 34]
  const QUOTE: seq<Byte> := [34]
  const OPEN: seq<Byte> := [60]
  const OPEN_END: seq<Byte> := [60, 47]
  const CLOSE: seq<Byte> := [62]
  const CLOSE_EMPTY: seq<Byte> := [47, 62]
  const XMLNS := "xmlns:"
  const ID := "id"
  const XSI_TYPE := "xsi:type"
  const XSI_NIL := "xsi:nil"
  const POSITION := "SOAP-ENC:position"
  const ROLE := "SOAP-ENV:role"
  const ACTOR := "SOAP-ENV:actor"
  const MUST_UNDERSTAND := "SOAP-ENV:mustUnderstand"
  const ENCODING_STYLE := "SOAP-ENV:encodingStyle"
  const TRUE := "true"
  const ONE := "1"
  const HASH := "#_"
  const UNDERSCORE := "_"
  const BRACKET := "]"
  const REF := "ref"
  const HREF := "href"

  /** An entry of the namespace table. */
  datatype Ns = Ns(id: string, ns: Option<string>, out: Option<string>)

  function Uri(n: Ns): Option<string> {
    if n.out.Some? then n.out else n.ns
  }

  /** What does not change during a pass, nor between the two; prolog is the one set, or the XML declaration
      that stands for none. */
  datatype Env = Env(
    version: nat, graph: bool, tree: bool, nil: bool, canonical: bool,
    namespaces: Option<seq<Ns>>, prolog: string, actor: Option<string>)

  /** The second entry of the table is that of the encoding. */
  predicate EnvOk(env: Env) {
    env.namespaces.Some? ==> |env.namespaces.value| >= 2 && Uri(env.namespaces.value[1]).Some?
  }

  /** A pointer and the type it is written as. */
  datatype Ptr = Ptr(p: Addr, t: int)

  /** The fields of struct soap that decide what is written, but for the two tables. */
  datatype Flags = Flags(
    inHeader: bool, ns: bool, isNull: bool, position: seq<int>, mustUnderstand: bool, encoding: bool,
    encodingStyle: Option<string>)

  /** A piece of output: bytes, a call of soap_attribute, or the attributes that have been set. */
  datatype Piece = Chars(b: seq<Byte>) | Attribute(name: string, value: Option<string>) | SetAttributes

  function Raw(s: string): (b: seq<Byte>)
    ensures |b| == |s|
  {
    if s == "" then [] else [s[0] as int % 256] + Raw(s[1..])
  }

  function AsString(b: seq<Byte>): string {
    if b == [] then "" else [b[0] as char] + AsString(b[1..])
  }

  function DecInt(n: int): seq<Byte> {
    if n < 0 then [45] + Dec(-n) else Dec(n)
  }

  function Positions(ps: seq<int>): seq<Byte> {
    if ps == [] then [] else Positions(ps[..|ps| - 1]) + (if |ps| == 1 then [91] else [44]) + DecInt(ps[|ps| - 1])
  }

  /** Pieces of output one after the other. */
  datatype Pieces = Skip | Just(p: Piece) | Then(first: Pieces, second: Pieces)

  /** The namespace declarations of the first element. */
  function Declarations(table: seq<Ns>): Pieces {
    if table == [] then Skip
    else
      Then(if table[0].id != "" && Uri(table[0]).Some? then Just(Attribute(XMLNS + table[0].id, Uri(table[0]))) else Skip,
           Declarations(table[1..]))
  }

  /** The start of an element, with what only the first one has. */
  function Heading(env: Env, f: Flags, tag: string): Pieces {
    Then(Then(if f.ns || env.canonical then Skip else Just(Chars(Raw(env.prolog))),
              Then(Just(Chars(OPEN)), Just(Chars(Raw(tag))))),
         if f.ns || env.namespaces.None? then Skip else Declarations(env.namespaces.value))
  }

  function IdAndType(id: int, typ: Option<string>): Pieces {
    Then(if id > 0 then Just(Attribute(ID, Some(UNDERSCORE + AsString(Dec(id))))) else Skip,
         if typ.Some? && typ.value != "" then Just(Attribute(XSI_TYPE, typ)) else Skip)
  }

  function Position(f: Flags): Pieces {
    if f.isNull && f.position != [] then Just(Attribute(POSITION, Some(AsString(Positions(f.position)) + BRACKET))) else Skip
  }

  function Actor(env: Env): Pieces {
    if env.actor.Some? && env.actor.value != "" then Just(Attribute(if env.version == 2 then ROLE else ACTOR, env.actor)) else Skip
  }

  function Understand(env: Env, f: Flags): Pieces {
    if !f.mustUnderstand then Skip
    else Then(Actor(env), Just(Attribute(MUST_UNDERSTAND, Some(if env.version == 2 then TRUE else ONE))))
  }

  /** An empty encoding style stands for the URI of the encoding. */
  function Style(env: Env, style: Option<string>): Option<string>
    requires EnvOk(env)
  {
    if env.namespaces.Some? && style == Some("") then Uri(env.namespaces.value[1]) else style
  }

  function Encoding(env: Env, f: Flags): Pieces
    requires EnvOk(env)
  {
    if f.encoding && f.encodingStyle.Some? && env.namespaces.Some?
    then Just(Attribute(ENCODING_STYLE, Style(env, f.encodingStyle))) else Skip
  }

  /** What soap_element writes, and what it does to the flags. */
  function Element(env: Env, f: Flags, tag: string, id: int, typ: Option<string>): Pieces
    requires EnvOk(env)
  {
    Then(Then(Then(Heading(env, f, tag), IdAndType(id, typ)), Position(f)), Then(Understand(env, f), Encoding(env, f)))
  }

  function AfterElement(env: Env, f: Flags): Flags
    requires EnvOk(env)
  {
    Flags(f.inHeader, true, false, [], false, false,
          if f.encoding && f.encodingStyle.Some? then Style(env, f.encodingStyle) else f.encodingStyle)
  }

  /** soap_element_end_out */
  function EndTag(tag: string): Pieces {
    if tag != "" && tag[0] == '-' then Skip
    else Then(Just(Chars(OPEN_END)), Then(Just(Chars(Raw(tag))), Just(Chars(CLOSE))))
  }

  /** soap_element_start_end_out */
  function StartEnd(env: Env, tag: Option<string>): Pieces {
    Then(Just(SetAttributes),
         if tag.None? then Just(Chars(CLOSE))
         else if env.canonical then Then(Just(Chars(CLOSE)), EndTag(tag.value))
         else Just(Chars(CLOSE_EMPTY)))
  }

  /** Whether soap_element_null writes an element at all. */
  predicate WritesNull(env: Env, f: Flags, anyVisible: bool, id: int) {
    anyVisible || (env.version == 2 && f.position != []) || id > 0 || env.nil
  }

  function NullElement(env: Env, f: Flags, anyVisible: bool, tag: string, id: int, typ: Option<string>): Pieces
    requires EnvOk(env)
  {
    if !WritesNull(env, f, anyVisible, id) then Skip
    else
      Then(Element(env, f, tag, id, typ),
           Then(if !f.inHeader && f.encodingStyle.Some? then Just(Attribute(XSI_NIL, Some(TRUE))) else Skip,
                StartEnd(env, Some(tag))))
  }

  function AfterNull(env: Env, f: Flags, anyVisible: bool, id: int): Flags
    requires EnvOk(env)
  {
    if WritesNull(env, f, anyVisible, id) then AfterElement(env, f)
    else f.(isNull := true, position := [], mustUnderstand := false)
  }

  /** soap_element_href */
  function Href(env: Env, f: Flags, tag: string, id: int, ref: string, val: string): Pieces
    requires EnvOk(env)
  {
    Then(Element(env, f, tag, id, None), Then(Just(Attribute(ref, Some(val))), StartEnd(env, Some(tag))))
  }

  /** soap_element_ref */
  function ElementRef(env: Env, f: Flags, tag: string, id: int, href: int): Pieces
    requires EnvOk(env)
  {
    if env.version == 2 then Href(env, f, tag, id, REF, UNDERSCORE + AsString(DecInt(href)))
    else Href(env, f, tag, id, HREF, HASH + AsString(DecInt(href)))
  }

  function AttributeText(name: string, value: Option<string>): seq<Byte> {
    SPACE + Raw(name) + (if value.Some? then EQUALS + EscapeAll(Raw(value.value), true, false) + QUOTE else [])
  }

  /** The attributes set since the last start tag. */
  function VisibleText(l: seq<Attr>, canonical: bool): seq<Byte> {
    if l == [] then []
    else VisibleText(l[..|l| - 1], canonical) + (if l[|l| - 1].visible != 0 then AttrText(l[|l| - 1], canonical) else [])
  }

  function AttrText(a: Attr, canonical: bool): seq<Byte> {
    SPACE + Raw(a.name)
    + (if a.visible == 2 && a.value.Some? then EQUALS + EscapeAll(Raw(a.value.value), true, canonical) + QUOTE else [])
  }

  function Hidden(l: seq<Attr>): (r: seq<Attr>)
    ensures |r| == |l| && forall i :: 0 <= i < |l| ==> r[i] == l[i].(visible := 0)
  {
    seq(|l|, i requires 0 <= i < |l| => l[i].(visible := 0))
  }

  predicate AnyVisible(l: seq<Attr>) {
    exists i :: 0 <= i < |l| && l[i].visible != 0
  }

  /** The list of attributes and the text after a piece. */
  function PieceList(canonical: bool, l: seq<Attr>, p: Piece): seq<Attr> {
    match p
    case Chars(_) => l
    case Attribute(name, value) => if canonical then SetAttr(l, true, name, value) else l
    case SetAttributes => Hidden(l)
  }

  function PieceText(canonical: bool, l: seq<Attr>, p: Piece): seq<Byte> {
    match p
    case Chars(b) => b
    case Attribute(name, value) => if canonical then [] else AttributeText(name, value)
    case SetAttributes => VisibleText(l, canonical)
  }

  function ListAfter(canonical: bool, l: seq<Attr>, ps: Pieces): seq<Attr>
    decreases ps
  {
    match ps
    case Skip => l
    case Just(p) => PieceList(canonical, l, p)
    case Then(first, second) => ListAfter(canonical, ListAfter(canonical, l, first), second)
  }

  function TextOf(canonical: bool, l: seq<Attr>, ps: Pieces): seq<Byte>
    decreases ps
  {
    match ps
    case Skip => []
    case Just(p) => PieceText(canonical, l, p)
    case Then(first, second) => TextOf(canonical, l, first) + TextOf(canonical, ListAfter(canonical, l, first), second)
  }

  /** Elements that are referred to are written on their own, at the end of the body. */
  predicate Independent(env: Env, f: Flags) {
    env.version == 1 && f.encodingStyle.Some? && !env.graph && !f.inHeader
  }

  function Lookup(pht: map<Ptr, Plist>, p: Ptr): int {
    if p.p != NULL && p in pht then pht[p].id else 0
  }

  /** The mark of the current pass. */
  function MarkOf(pht: map<Ptr, Plist>, lengthMode: bool, p: Ptr): int {
    if p in pht then MarkIn(pht[p], lengthMode) else 0
  }

  function SetMark(pht: map<Ptr, Plist>, lengthMode: bool, p: Ptr, m: int): map<Ptr, Plist>
    requires p in pht
  {
    pht[p := if lengthMode then pht[p].(mark1 := m) else pht[p].(mark2 := m)]
  }

  /** soap_is_embedded for a pointer with a mark */
  predicate IsEmbedded(env: Env, f: Flags, mark: int) {
    if Independent(env, f) then mark != 0 else mark == 1
  }

  /** soap_is_single for a pointer with a mark */
  predicate IsSingle(f: Flags, mark: int) {
    f.inHeader || mark == 0
  }

  /** The output calls, and the fields that callers set themselves. */
  datatype Op =
    | OpElement(tag: string, id: int, typ: Option<string>)
    | OpStartEnd(tag0: Option<string>)
    | OpEnd(tag: string)
    | OpAttribute(name: string, value: Option<string>)
    | OpSetAttr(name: string, value: Option<string>)
    | OpString(s: seq<Byte>, flag: bool)
    | OpNull(tag: string, id: int, typ: Option<string>)
    | OpHref(tag: string, id: int, ref: string, val: string)
    | OpElementRef(tag: string, id: int, href: int)
    | OpElementId(tag: string, id: int, p: Ptr, typ: Option<string>)
    | OpEmbeddedId(id: int, p: Ptr)
    | OpPosition(ps: seq<int>)
    | OpMustUnderstand
    | OpEncoding
    | OpHeader(inHeader: bool)

  /** What a call writes, what it leaves in the flags, the mark it sets if any, and what it returns. */
  datatype Plan = Plan(pieces: Pieces, flags: Flags, mark: Option<int>, result: int)

  /** soap_element_id: i and mark are the id of the pointer and its mark in the current pass. */
  function PlanElementId(
      env: Env, f: Flags, anyVisible: bool, i: int, mark: int, tag: string, id: int, p: Ptr, typ: Option<string>): Plan
    requires EnvOk(env)
  {
    if p.p == NULL then
      Plan(NullElement(env, f, anyVisible, tag, id, typ), AfterNull(env, f, anyVisible, id), None, -1)
    else if env.tree then Plan(Skip, f, None, 0)
    else if id >= 0 then Plan(Skip, f, None, id)
    else if i == 0 then Plan(Skip, f, None, 0)
    else if IsEmbedded(env, f, mark) then Plan(ElementRef(env, f, tag, 0, i), AfterElement(env, f), None, -1)
    else if IsSingle(f, mark) then Plan(Skip, f, None, 0)
    else Plan(Skip, f, Some(1), i)
  }

  /** soap_embedded_id */
  function PlanEmbeddedId(env: Env, f: Flags, i: int, id: int): Plan {
    if env.tree then Plan(Skip, f, None, id)
    else if Independent(env, f) then
      if id >= 0 then Plan(Skip, f, None, id)
      else if i == 0 then Plan(Skip, f, None, -1)
      else Plan(Skip, f, Some(2), -1)
    else if id == 0 || i == 0 then Plan(Skip, f, None, 0)
    else Plan(Skip, f, Some(1), if id < 0 then i else id)
  }

  function PlanOf(env: Env, f: Flags, anyVisible: bool, i: int, mark: int, op: Op): Plan
    requires EnvOk(env)
  {
    match op
    case OpElement(tag, id, typ) => Plan(Element(env, f, tag, id, typ), AfterElement(env, f), None, 0)
    case OpStartEnd(tag) => Plan(StartEnd(env, tag), f, None, 0)
    case OpEnd(tag) => Plan(EndTag(tag), f, None, 0)
    case OpAttribute(name, value) => Plan(Just(Attribute(name, value)), f, None, 0)
    case OpSetAttr(name, value) => Plan(Skip, f, None, 0)
    case OpString(s, flag) => Plan(Just(Chars(EscapeAll(s, flag, env.canonical))), f, None, 0)
    case OpNull(tag, id, typ) =>
      Plan(NullElement(env, f, anyVisible, tag, id, typ), AfterNull(env, f, anyVisible, id), None, 0)
    case OpHref(tag, id, ref, val) => Plan(Href(env, f, tag, id, ref, val), AfterElement(env, f), None, 0)
    case OpElementRef(tag, id, href) => Plan(ElementRef(env, f, tag, id, href), AfterElement(env, f), None, 0)
    case OpElementId(tag, id, p, typ) => PlanElementId(env, f, anyVisible, i, mark, tag, id, p, typ)
    case OpEmbeddedId(id, p) => PlanEmbeddedId(env, f, i, id)
    case OpPosition(ps) => Plan(Skip, f.(position := ps), None, 0)
    case OpMustUnderstand => Plan(Skip, f.(mustUnderstand := true), None, 0)
    case OpEncoding => Plan(Skip, f.(encoding := true), None, 0)
    case OpHeader(h) => Plan(Skip, f.(inHeader := h), None, 0)
  }

  /** The pointer a call is about. */
  function PtrOf(op: Op): Ptr {
    match op
    case OpElementId(_, _, p, _) => p
    case OpEmbeddedId(_, p) => p
    case _ => Ptr(NULL, 0)
  }

  /** The fields of struct soap during a pass. */
  datatype Ctl = Ctl(flags: Flags, attributes: seq<Attr>, pht: map<Ptr, Plist>)

  function PlanIn(env: Env, lengthMode: bool, c: Ctl, op: Op): Plan
    requires EnvOk(env)
  {
    PlanOf(env, c.flags, AnyVisible(c.attributes), Lookup(c.pht, PtrOf(op)), MarkOf(c.pht, lengthMode, PtrOf(op)), op)
  }

  function ListNext(env: Env, l: seq<Attr>, op: Op, ps: Pieces): seq<Attr> {
    if op.OpSetAttr? then SetAttr(l, env.canonical, op.name, op.value) else ListAfter(env.canonical, l, ps)
  }

  function MarksNext(pht: map<Ptr, Plist>, lengthMode: bool, p: Ptr, mark: Option<int>): map<Ptr, Plist> {
    if mark.Some? && p in pht then SetMark(pht, lengthMode, p, mark.value) else pht
  }

  /** The fields after a call, what it writes, and what it returns. */
  function Next(env: Env, lengthMode: bool, c: Ctl, op: Op): Ctl
    requires EnvOk(env)
  {
    var plan := PlanIn(env, lengthMode, c, op);
    Ctl(plan.flags, ListNext(env, c.attributes, op, plan.pieces), MarksNext(c.pht, lengthMode, PtrOf(op), plan.mark))
  }

  function Says(env: Env, lengthMode: bool, c: Ctl, op: Op): seq<Byte>
    requires EnvOk(env)
  {
    TextOf(env.canonical, c.attributes, PlanIn(env, lengthMode, c, op).pieces)
  }

  function Result(env: Env, lengthMode: bool, c: Ctl, op: Op): int
    requires EnvOk(env)
  {
    PlanIn(env, lengthMode, c, op).result
  }

  /** The flags at the same point of the two passes: the first may have looked up the encoding style already. */
  ghost predicate FlagsAlike(env: Env, f1: Flags, f2: Flags)
    requires EnvOk(env)
  {
    && f1.(encodingStyle := None) == f2.(encodingStyle := None)
    && f1.encodingStyle.Some? == f2.encodingStyle.Some? && Style(env, f1.encodingStyle) == Style(env, f2.encodingStyle)
  }

  lemma AfterElementAlike(env: Env, f1: Flags, f2: Flags)
    requires EnvOk(env) && FlagsAlike(env, f1, f2)
    ensures FlagsAlike(env, AfterElement(env, f1), AfterElement(env, f2))
  {
  }

  lemma AfterNullAlike(env: Env, f1: Flags, f2: Flags, anyVisible: bool, id: int)
    requires EnvOk(env) && FlagsAlike(env, f1, f2)
    ensures FlagsAlike(env, AfterNull(env, f1, anyVisible, id), AfterNull(env, f2, anyVisible, id))
  {
  }

  lemma ElementAlike(env: Env, f1: Flags, f2: Flags, tag: string, id: int, typ: Option<string>)
    requires EnvOk(env) && FlagsAlike(env, f1, f2)
    ensures Element(env, f1, tag, id, typ) == Element(env, f2, tag, id, typ)
  {
    assert Heading(env, f1, tag) == Heading(env, f2, tag);
    assert Position(f1) == Position(f2) && Understand(env, f1) == Understand(env, f2);
    assert Encoding(env, f1) == Encoding(env, f2);
  }

  lemma NullAlike(env: Env, f1: Flags, f2: Flags, anyVisible: bool, tag: string, id: int, typ: Option<string>)
    requires EnvOk(env) && FlagsAlike(env, f1, f2)
    ensures NullElement(env, f1, anyVisible, tag, id, typ) == NullElement(env, f2, anyVisible, tag, id, typ)
  {
    ElementAlike(env, f1, f2, tag, id, typ);
  }

  lemma HrefAlike(env: Env, f1: Flags, f2: Flags, tag: string, id: int, ref: string, val: string)
    requires EnvOk(env) && FlagsAlike(env, f1, f2)
    ensures Href(env, f1, tag, id, ref, val) == Href(env, f2, tag, id, ref, val)
  {
    ElementAlike(env, f1, f2, tag, id, None);
  }

  lemma ElementRefAlike(env: Env, f1: Flags, f2: Flags, tag: string, id: int, href: int)
    requires EnvOk(env) && FlagsAlike(env, f1, f2)
    ensures ElementRef(env, f1, tag, id, href) == ElementRef(env, f2, tag, id, href)
  {
    HrefAlike(env, f1, f2, tag, id, REF, UNDERSCORE + AsString(DecInt(href)));
    HrefAlike(env, f1, f2, tag, id, HREF, HASH + AsString(DecInt(href)));
  }

  ghost predicate PlansAlike(env: Env, p1: Plan, p2: Plan)
    requires EnvOk(env)
  {
    p1.pieces == p2.pieces && p1.mark == p2.mark && p1.result == p2.result && FlagsAlike(env, p1.flags, p2.flags)
  }

  lemma SamePieces(env: Env, ps1: Pieces, ps2: Pieces, f1: Flags, f2: Flags, result: int)
    requires EnvOk(env) && FlagsAlike(env, f1, f2) && ps1 == ps2
    ensures PlansAlike(env, Plan(ps1, f1, None, result), Plan(ps2, f2, None, result))
  {
  }

  lemma NullIdAlike(
      env: Env, f1: Flags, f2: Flags, anyVisible: bool, i: int, mark: int, tag: string, id: int, p: Ptr, typ: Option<string>)
    requires EnvOk(env) && FlagsAlike(env, f1, f2) && p.p == NULL
    ensures PlansAlike(env, PlanElementId(env, f1, anyVisible, i, mark, tag, id, p, typ),
                       PlanElementId(env, f2, anyVisible, i, mark, tag, id, p, typ))
  {
    NullAlike(env, f1, f2, anyVisible, tag, id, typ);
    AfterNullAlike(env, f1, f2, anyVisible, id);
    SamePieces(env, NullElement(env, f1, anyVisible, tag, id, typ), NullElement(env, f2, anyVisible, tag, id, typ),
               AfterNull(env, f1, anyVisible, id), AfterNull(env, f2, anyVisible, id), -1);
  }

  lemma RefIdAlike(
      env: Env, f1: Flags, f2: Flags, anyVisible: bool, i: int, mark: int, tag: string, id: int, p: Ptr, typ: Option<string>)
    requires EnvOk(env) && FlagsAlike(env, f1, f2)
    requires p.p != NULL && !env.tree && id < 0 && i != 0 && IsEmbedded(env, f1, mark)
    ensures PlansAlike(env, PlanElementId(env, f1, anyVisible, i, mark, tag, id, p, typ),
                       PlanElementId(env, f2, anyVisible, i, mark, tag, id, p, typ))
  {
    ElementRefAlike(env, f1, f2, tag, 0, i);
    AfterElementAlike(env, f1, f2);
    SamePieces(env, ElementRef(env, f1, tag, 0, i), ElementRef(env, f2, tag, 0, i),
               AfterElement(env, f1), AfterElement(env, f2), -1);
  }

  lemma ElementIdAlike(
      env: Env, f1: Flags, f2: Flags, anyVisible: bool, i: int, mark: int, tag: string, id: int, p: Ptr, typ: Option<string>)
    requires EnvOk(env) && FlagsAlike(env, f1, f2)
    ensures PlansAlike(env, PlanElementId(env, f1, anyVisible, i, mark, tag, id, p, typ),
                       PlanElementId(env, f2, anyVisible, i, mark, tag, id, p, typ))
  {
    if p.p == NULL {
      NullIdAlike(env, f1, f2, anyVisible, i, mark, tag, id, p, typ);
    } else if !env.tree && id < 0 && i != 0 && IsEmbedded(env, f1, mark) {
      RefIdAlike(env, f1, f2, anyVisible, i, mark, tag, id, p, typ);
    }
  }

  predicate WritesElement(op: Op) {
    op.OpElement? || op.OpNull? || op.OpHref? || op.OpElementRef?
  }

  lemma WritingAlike(env: Env, f1: Flags, f2: Flags, anyVisible: bool, i: int, mark: int, op: Op)
    requires EnvOk(env) && FlagsAlike(env, f1, f2) && WritesElement(op)
    ensures PlansAlike(env, PlanOf(env, f1, anyVisible, i, mark, op), PlanOf(env, f2, anyVisible, i, mark, op))
  {
    AfterElementAlike(env, f1, f2);
    AfterNullAlike(env, f1, f2, anyVisible, if op.OpNull? then op.id else 0);
    match op {
      case OpElement(tag, id, typ) => ElementAlike(env, f1, f2, tag, id, typ);
      case OpNull(tag, id, typ) => NullAlike(env, f1, f2, anyVisible, tag, id, typ);
      case OpHref(tag, id, ref, val) => HrefAlike(env, f1, f2, tag, id, ref, val);
      case OpElementRef(tag, id, href) => ElementRefAlike(env, f1, f2, tag, id, href);
    }
    var p1, p2 := PlanOf(env, f1, anyVisible, i, mark, op), PlanOf(env, f2, anyVisible, i, mark, op);
    SamePieces(env, p1.pieces, p2.pieces, p1.flags, p2.flags, 0);
  }

  /** A call is made alike at the same point of the two passes. */
  lemma PlanAlike(env: Env, f1: Flags, f2: Flags, anyVisible: bool, i: int, mark: int, op: Op)
    requires EnvOk(env) && FlagsAlike(env, f1, f2)
    ensures PlansAlike(env, PlanOf(env, f1, anyVisible, i, mark, op), PlanOf(env, f2, anyVisible, i, mark, op))
  {
    if WritesElement(op) {
      WritingAlike(env, f1, f2, anyVisible, i, mark, op);
    } else if op.OpElementId? {
      ElementIdAlike(env, f1, f2, anyVisible, i, mark, op.tag, op.id, op.p, op.typ);
    }
  }

  /** Two attributes that are written alike. */
  predicate AttrAlike(a: Attr, b: Attr) {
    a.name == b.name && a.visible == b.visible && (a.visible == 2 ==> a.value == b.value)
  }

  /** The names of l are the last ones of m. */
  ghost predicate EndsIn(m: seq<Attr>, l: seq<Attr>) {
    |l| <= |m| && EndsAt(m, l, |m| - |l|)
  }

  ghost predicate EndsAt(m: seq<Attr>, l: seq<Attr>, k: nat) {
    |m| == k + |l| && forall i {:trigger l[i]} :: 0 <= i < |l| ==> l[i].name == m[k + i].name
  }

  /** The lists of the two passes, when new attributes are put in front: that of the second has all the names
      from the start, but those that the first pass has not met so far are not written. */
  ghost predicate ListsAlike(l1: seq<Attr>, l2: seq<Attr>) {
    |l1| <= |l2| && AlikeFrom(l1, l2, |l2| - |l1|)
  }

  /** From k on, l2 is l1; before that, nothing of it is written. */
  ghost predicate AlikeFrom(l1: seq<Attr>, l2: seq<Attr>, k: nat) {
    && |l2| == k + |l1| && (forall i :: 0 <= i < k ==> l2[i].visible == 0)
    && (forall i {:trigger l1[i]} :: 0 <= i < |l1| ==> AttrAlike(l1[i], l2[k + i]))
  }

  ghost predicate AttrsAlike(canonical: bool, l1: seq<Attr>, l2: seq<Attr>) {
    if canonical then l1 == l2 else ListsAlike(l1, l2)
  }

  /** Attributes that are not written make no difference. */
  lemma {:induction false} VisibleFrom(l1: seq<Attr>, l2: seq<Attr>, k: nat, canonical: bool)
    requires AlikeFrom(l1, l2, k)
    ensures VisibleText(l1, canonical) == VisibleText(l2, canonical) && AnyVisible(l1) == AnyVisible(l2)
    decreases |l2|
  {
    if l2 != [] {
      var n, m := |l2| - 1, |l1| - 1;
      LastVisible(l2);
      if l1 == [] {
        VisibleFrom([], l2[..n], k - 1, canonical);
      } else {
        LastVisible(l1);
        assert AttrAlike(l1[m], l2[n]);
        VisibleFrom(l1[..m], l2[..n], k, canonical);
      }
    }
  }

  lemma VisibleAlike(l1: seq<Attr>, l2: seq<Attr>, canonical: bool)
    requires ListsAlike(l1, l2)
    ensures VisibleText(l1, canonical) == VisibleText(l2, canonical) && AnyVisible(l1) == AnyVisible(l2)
  {
    VisibleFrom(l1, l2, |l2| - |l1|, canonical);
  }

  lemma HiddenFrom(l1: seq<Attr>, l2: seq<Attr>, k: nat)
    requires AlikeFrom(l1, l2, k)
    ensures AlikeFrom(Hidden(l1), Hidden(l2), k)
  {
    var h1, h2 := Hidden(l1), Hidden(l2);
    forall i | 0 <= i < |h1|
      ensures AttrAlike(h1[i], h2[k + i])
    {
      assert AttrAlike(l1[i], l2[k + i]);
      assert h1[i] == l1[i].(visible := 0) && h2[k + i] == l2[k + i].(visible := 0);
    }
  }

  lemma HiddenAlike(l1: seq<Attr>, l2: seq<Attr>)
    requires ListsAlike(l1, l2)
    ensures ListsAlike(Hidden(l1), Hidden(l2))
  {
    HiddenFrom(l1, l2, |l2| - |l1|);
  }

  lemma LastVisible(l: seq<Attr>)
    requires l != []
    ensures AnyVisible(l) <==> AnyVisible(l[..|l| - 1]) || l[|l| - 1].visible != 0
  {
    if AnyVisible(l) && l[|l| - 1].visible == 0 {
      var i :| 0 <= i < |l| && l[i].visible != 0;
      assert l[..|l| - 1][i].visible != 0;
    }
    if AnyVisible(l[..|l| - 1]) {
      var i :| 0 <= i < |l| - 1 && l[..|l| - 1][i].visible != 0;
      assert l[i].visible != 0;
    }
  }

  lemma PieceAlike(canonical: bool, l1: seq<Attr>, l2: seq<Attr>, p: Piece)
    requires AttrsAlike(canonical, l1, l2)
    ensures PieceText(canonical, l1, p) == PieceText(canonical, l2, p)
    ensures AttrsAlike(canonical, PieceList(canonical, l1, p), PieceList(canonical, l2, p))
  {
    if !canonical && p.SetAttributes? {
      VisibleAlike(l1, l2, canonical);
      HiddenAlike(l1, l2);
    }
  }

  lemma {:induction false} PiecesAlike(canonical: bool, l1: seq<Attr>, l2: seq<Attr>, ps: Pieces)
    requires AttrsAlike(canonical, l1, l2)
    ensures TextOf(canonical, l1, ps) == TextOf(canonical, l2, ps)
    ensures AttrsAlike(canonical, ListAfter(canonical, l1, ps), ListAfter(canonical, l2, ps))
    decreases ps
  {
    match ps {
      case Skip =>
      case Just(p) => PieceAlike(canonical, l1, l2, p);
      case Then(first, second) =>
        PiecesAlike(canonical, l1, l2, first);
        PiecesAlike(canonical, ListAfter(canonical, l1, first), ListAfter(canonical, l2, first), second);
    }
  }

  ghost predicate MarksAlike(p1: map<Ptr, Plist>, p2: map<Ptr, Plist>) {
    p1.Keys == p2.Keys && forall p :: p in p1 ==> p1[p].id == p2[p].id && p1[p].mark1 == p2[p].mark2
  }

  /** The same point of the two passes; last is the list the first pass will end with. */
  ghost predicate Alike(env: Env, last: seq<Attr>, c1: Ctl, c2: Ctl)
    requires EnvOk(env)
  {
    && FlagsAlike(env, c1.flags, c2.flags) && AttrsAlike(env.canonical, c1.attributes, c2.attributes)
    && MarksAlike(c1.pht, c2.pht)
    && (!env.canonical ==> EndsAt(last, c2.attributes, 0) && Unique(last))
  }

  lemma PlanInAlike(env: Env, last: seq<Attr>, c1: Ctl, c2: Ctl, op: Op)
    requires EnvOk(env) && Alike(env, last, c1, c2)
    ensures PlansAlike(env, PlanIn(env, true, c1, op), PlanIn(env, false, c2, op))
  {
    if !env.canonical {
      VisibleAlike(c1.attributes, c2.attributes, false);
    }
    PlanAlike(env, c1.flags, c2.flags, AnyVisible(c1.attributes), Lookup(c1.pht, PtrOf(op)),
              MarkOf(c1.pht, true, PtrOf(op)), op);
  }

  lemma MarksNextAlike(p1: map<Ptr, Plist>, p2: map<Ptr, Plist>, p: Ptr, mark: Option<int>)
    requires MarksAlike(p1, p2)
    ensures MarksAlike(MarksNext(p1, true, p, mark), MarksNext(p2, false, p, mark))
  {
  }

  lemma Foremost(last: seq<Attr>, l: seq<Attr>, name: string, k: nat)
    requires EndsAt(last, l, 0) && Unique(last) && k < |l| && l[k].name == name
    ensures Has(l, name) && IndexOf(l, name) == k
  {
    var i := IndexOf(l, name);
    assert l[i].name == last[i].name && l[k].name == last[k].name;
    assert !(i < k) && !(k < i);
  }

  lemma SetKnownAlike(l1: seq<Attr>, l2: seq<Attr>, k: nat, i: nat, value: Option<string>)
    requires AlikeFrom(l1, l2, k) && i < |l1|
    ensures AlikeFrom(l1[i := Stored(l1[i], value)], l2[k + i := Stored(l2[k + i], value)], k)
  {
    var m1, m2 := l1[i := Stored(l1[i], value)], l2[k + i := Stored(l2[k + i], value)];
    assert AttrAlike(l1[i], l2[k + i]);
    forall j | 0 <= j < |m1|
      ensures AttrAlike(m1[j], m2[k + j])
    {
      assert AttrAlike(l1[j], l2[k + j]);
    }
  }

  lemma SetNewAlike(l1: seq<Attr>, l2: seq<Attr>, k: nat, a: Attr, value: Option<string>)
    requires AlikeFrom(l1, l2, k) && k > 0 && l2[k - 1].name == a.name
    ensures AlikeFrom([Stored(a, value)] + l1, l2[k - 1 := Stored(l2[k - 1], value)], k - 1)
  {
    var m1, m2 := [Stored(a, value)] + l1, l2[k - 1 := Stored(l2[k - 1], value)];
    forall j | 0 <= j < |m1|
      ensures AttrAlike(m1[j], m2[k - 1 + j])
    {
      if j > 0 {
        assert m1[j] == l1[j - 1] && AttrAlike(l1[j - 1], l2[k + (j - 1)]);
      }
    }
  }

  lemma NewestName(last: seq<Attr>, l: seq<Attr>, a: Attr)
    requires EndsIn(last, [a] + l)
    ensures |l| < |last| && last[|last| - |l| - 1].name == a.name
  {
    assert ([a] + l)[0] == a;
  }

  lemma StoredKeepsNames(last: seq<Attr>, l: seq<Attr>, i: nat, value: Option<string>)
    requires EndsAt(last, l, 0) && i < |l|
    ensures EndsAt(last, l[i := Stored(l[i], value)], 0)
  {
  }

  lemma SetKnownName(last: seq<Attr>, l1: seq<Attr>, l2: seq<Attr>, name: string, value: Option<string>)
    requires ListsAlike(l1, l2) && EndsAt(last, l2, 0) && Unique(last) && Has(l1, name)
    ensures ListsAlike(SetAttr(l1, false, name, value), SetAttr(l2, false, name, value))
    ensures EndsAt(last, SetAttr(l2, false, name, value), 0)
  {
    var k, i := |l2| - |l1|, IndexOf(l1, name);
    assert AttrAlike(l1[i], l2[k + i]);
    Foremost(last, l2, name, k + i);
    SetKnownAlike(l1, l2, k, i, value);
    StoredKeepsNames(last, l2, k + i, value);
  }

  /** An attribute set in front of the list of the first pass is in its place in that of the second. */
  lemma SetAttrAlike(last: seq<Attr>, l1: seq<Attr>, l2: seq<Attr>, name: string, value: Option<string>)
    requires ListsAlike(l1, l2) && EndsAt(last, l2, 0) && Unique(last)
    requires EndsIn(last, SetAttr(l1, false, name, value))
    ensures ListsAlike(SetAttr(l1, false, name, value), SetAttr(l2, false, name, value))
    ensures EndsAt(last, SetAttr(l2, false, name, value), 0)
  {
    if Has(l1, name) {
      SetKnownName(last, l1, l2, name, value);
    } else {
      var k, a := |l2| - |l1|, Attr(name, None, None, 0, 0);
      NewestName(last, l1, Stored(a, value));
      assert l2[k - 1].name == last[k - 1].name;
      Foremost(last, l2, name, k - 1);
      SetNewAlike(l1, l2, k, a, value);
      StoredKeepsNames(last, l2, k - 1, value);
    }
  }

  /** Pieces leave the names of the list as they are when it is not in canonical order. */
  lemma {:induction false} PiecesKeepNames(last: seq<Attr>, l: seq<Attr>, ps: Pieces, k: nat)
    requires EndsAt(last, l, k)
    ensures |ListAfter(false, l, ps)| == |l| && EndsAt(last, ListAfter(false, l, ps), k)
    decreases ps
  {
    match ps {
      case Skip =>
      case Just(p) =>
        var m := PieceList(false, l, p);
        assert |m| == |l| && forall i :: 0 <= i < |l| ==> m[i].name == l[i].name;
      case Then(first, second) =>
        PiecesKeepNames(last, l, first, k);
        PiecesKeepNames(last, ListAfter(false, l, first), second, k);
    }
  }

  lemma ListNextAlike(env: Env, last: seq<Attr>, l1: seq<Attr>, l2: seq<Attr>, op: Op, ps: Pieces)
    requires AttrsAlike(env.canonical, l1, l2)
    requires !env.canonical ==> EndsAt(last, l2, 0) && Unique(last) && EndsIn(last, ListNext(env, l1, op, ps))
    ensures
      var m1, m2 := ListNext(env, l1, op, ps), ListNext(env, l2, op, ps);
      AttrsAlike(env.canonical, m1, m2) && (!env.canonical ==> EndsAt(last, m2, 0))
  {
    PiecesAlike(env.canonical, l1, l2, ps);
    if !env.canonical {
      if op.OpSetAttr? {
        SetAttrAlike(last, l1, l2, op.name, op.value);
      } else {
        PiecesKeepNames(last, l2, ps, 0);
      }
    }
  }

  lemma SaysAlike(env: Env, last: seq<Attr>, c1: Ctl, c2: Ctl, op: Op)
    requires EnvOk(env) && Alike(env, last, c1, c2)
    ensures Says(env, true, c1, op) == Says(env, false, c2, op)
    ensures Result(env, true, c1, op) == Result(env, false, c2, op)
  {
    PlanInAlike(env, last, c1, c2, op);
    PiecesAlike(env.canonical, c1.attributes, c2.attributes, PlanIn(env, true, c1, op).pieces);
  }

  /** One call, at the same point of the two passes. */
  lemma CallAlike(env: Env, last: seq<Attr>, c1: Ctl, c2: Ctl, op: Op)
    requires EnvOk(env) && Alike(env, last, c1, c2)
    requires !env.canonical ==> EndsIn(last, Next(env, true, c1, op).attributes)
    ensures Alike(env, last, Next(env, true, c1, op), Next(env, false, c2, op))
  {
    PlanInAlike(env, last, c1, c2, op);
    var p1 := PlanIn(env, true, c1, op);
    MarksNextAlike(c1.pht, c2.pht, PtrOf(op), p1.mark);
    ListNextAlike(env, last, c1.attributes, c2.attributes, op, p1.pieces);
  }

  /** What the first pass leaves alone: the names it has met, the marks of the second pass, and whether there
      is an encoding style and what it stands for. */
  ghost predicate Kept(env: Env, c: Ctl, d: Ctl)
    requires EnvOk(env)
  {
    && (!env.canonical ==> EndsIn(d.attributes, c.attributes) && (Unique(c.attributes) ==> Unique(d.attributes)))
    && c.pht.Keys == d.pht.Keys && (forall p :: p in c.pht ==> c.pht[p].id == d.pht[p].id && c.pht[p].mark2 == d.pht[p].mark2)
    && c.flags.encodingStyle.Some? == d.flags.encodingStyle.Some?
    && Style(env, c.flags.encodingStyle) == Style(env, d.flags.encodingStyle)
  }

  lemma EndsTransitive(n: seq<Attr>, m: seq<Attr>, l: seq<Attr>, i: nat, j: nat)
    requires EndsAt(m, l, i) && EndsAt(n, m, j)
    ensures EndsAt(n, l, j + i)
  {
    forall k | 0 <= k < |l|
      ensures l[k].name == n[j + i + k].name
    {
      assert m[i + k].name == n[j + (i + k)].name;
    }
  }

  lemma StyleKept(env: Env, f: Flags, anyVisible: bool, i: int, mark: int, op: Op)
    requires EnvOk(env)
    ensures
      var g := PlanOf(env, f, anyVisible, i, mark, op).flags;
      f.encodingStyle.Some? == g.encodingStyle.Some? && Style(env, f.encodingStyle) == Style(env, g.encodingStyle)
  {
  }

  lemma SameNames(l: seq<Attr>, m: seq<Attr>)
    requires EndsAt(m, l, 0)
    ensures EndsIn(m, l) && (Unique(l) ==> Unique(m))
  {
    if Unique(l) {
      forall i, j | 0 <= i < j < |m|
        ensures m[i].name != m[j].name
      {
        assert l[i].name == m[i].name && l[j].name == m[j].name;
      }
    }
  }

  lemma SetKept(l: seq<Attr>, name: string, value: Option<string>)
    ensures
      var m := SetAttr(l, false, name, value);
      EndsIn(m, l) && (Unique(l) ==> Unique(m))
  {
    var m := SetAttr(l, false, name, value);
    if Has(l, name) {
      assert EndsAt(m, l, 0);
      SameNames(l, m);
    } else {
      assert EndsAt(m, l, 1);
      if Unique(l) {
        SetAttrStores(l, false, name, value);
      }
    }
  }

  lemma {:induction false} PiecesKept(l: seq<Attr>, ps: Pieces)
    ensures EndsAt(ListAfter(false, l, ps), l, 0)
    decreases ps
  {
    match ps {
      case Skip =>
      case Just(p) =>
      case Then(first, second) =>
        var m := ListAfter(false, l, first);
        PiecesKept(l, first);
        PiecesKept(m, second);
        EndsTransitive(ListAfter(false, m, second), m, l, 0, 0);
    }
  }

  lemma CallKeeps(env: Env, c: Ctl, op: Op)
    requires EnvOk(env)
    ensures Kept(env, c, Next(env, true, c, op))
  {
    var plan := PlanIn(env, true, c, op);
    StyleKept(env, c.flags, AnyVisible(c.attributes), Lookup(c.pht, PtrOf(op)), MarkOf(c.pht, true, PtrOf(op)), op);
    if !env.canonical {
      if op.OpSetAttr? {
        SetKept(c.attributes, op.name, op.value);
      } else {
        PiecesKept(c.attributes, plan.pieces);
        SameNames(c.attributes, ListAfter(false, c.attributes, plan.pieces));
      }
    }
  }

  lemma KeptTransitive(env: Env, c: Ctl, d: Ctl, e: Ctl)
    requires EnvOk(env) && Kept(env, c, d) && Kept(env, d, e)
    ensures Kept(env, c, e)
  {
    if !env.canonical {
      EndsTransitive(e.attributes, d.attributes, c.attributes,
                     |d.attributes| - |c.attributes|, |e.attributes| - |d.attributes|);
    }
  }

  /** A call in the counting pass or in the sending pass. */
  function Call(env: Env, lengthMode: bool): (Ctl, Op) -> Move<Ctl>
    requires EnvOk(env)
  {
    (c: Ctl, op: Op) => Move(Next(env, lengthMode, c, op), Says(env, lengthMode, c, op), Result(env, lengthMode, c, op))
  }

  /** The fields soap_begin_count and soap_begin_send set, with soap_clr_attr. */
  function PassStart(env: Env, c: Ctl): Ctl {
    Ctl(Flags(false, false, false, [], false, false, c.flags.encodingStyle),
        if env.canonical then [] else Hidden(c.attributes), c.pht)
  }

  /** The state soap_begin_count finds: the reference phase has left the two marks of each pointer equal. */
  ghost predicate Serialized(c: Ctl) {
    Unique(c.attributes) && forall p :: p in c.pht ==> c.pht[p].mark1 == c.pht[p].mark2
  }

  ghost function CountPass(env: Env, client: Client<Op>, n: nat, c: Ctl): Pass<Ctl>
    requires EnvOk(env)
  {
    Run(Call(env, true), client, n, Pass(PassStart(env, c), [], []))
  }

  ghost function SendPass(env: Env, client: Client<Op>, n: nat, c: Ctl): Pass<Ctl>
    requires EnvOk(env)
  {
    Run(Call(env, false), client, n, Pass(PassStart(env, CountPass(env, client, n, c).state), [], []))
  }

  lemma HiddenFromEnd(m: seq<Attr>, l: seq<Attr>, k: nat)
    requires EndsAt(m, l, k)
    ensures AlikeFrom(Hidden(l), Hidden(m), k)
  {
    var l1, l2 := Hidden(l), Hidden(m);
    forall i | 0 <= i < |l1|
      ensures AttrAlike(l1[i], l2[k + i])
    {
      assert l[i].name == m[k + i].name;
      assert l1[i] == l[i].(visible := 0) && l2[k + i] == m[k + i].(visible := 0);
    }
  }

  lemma HiddenNames(m: seq<Attr>)
    ensures EndsAt(m, Hidden(m), 0)
  {
  }

  lemma HiddenEnds(m: seq<Attr>, l: seq<Attr>, k: nat)
    requires EndsAt(m, Hidden(l), k)
    ensures EndsAt(m, l, k)
  {
    var h := Hidden(l);
    forall i | 0 <= i < |l|
      ensures l[i].name == m[k + i].name
    {
      assert h[i].name == m[k + i].name && h[i] == l[i].(visible := 0);
    }
  }

  lemma HiddenTwice(m: seq<Attr>, l: seq<Attr>)
    requires EndsIn(m, Hidden(l))
    ensures ListsAlike(Hidden(l), Hidden(m)) && EndsAt(m, Hidden(m), 0)
  {
    HiddenNames(m);
    HiddenEnds(m, l, |m| - |l|);
    HiddenFromEnd(m, l, |m| - |l|);
  }

  lemma BeginAlike(env: Env, c: Ctl, d: Ctl)
    requires EnvOk(env) && Serialized(c) && Kept(env, PassStart(env, c), d)
    ensures Alike(env, d.attributes, PassStart(env, c), PassStart(env, d))
  {
    if !env.canonical {
      HiddenTwice(d.attributes, c.attributes);
      HiddenNames(c.attributes);
      SameNames(Hidden(c.attributes), c.attributes);
    }
  }

  ghost predicate Within(env: Env, last: seq<Attr>, c: Ctl) {
    !env.canonical ==> EndsIn(last, c.attributes)
  }

  /** The two passes write the same text. */
  lemma PassesAgree(env: Env, client: Client<Op>, n: nat, c: Ctl)
    requires EnvOk(env) && Serialized(c)
    ensures CountPass(env, client, n, c).text == SendPass(env, client, n, c).text
    ensures CountPass(env, client, n, c).results == SendPass(env, client, n, c).results
  {
    var p1 := Pass(PassStart(env, c), [], []);
    var d := CountPass(env, client, n, c).state;
    var p2 := Pass(PassStart(env, d), [], []);
    var kept := (a: Ctl, b: Ctl) => Kept(env, a, b);
    CallsKeep(env, kept);
    RunKeeps(Call(env, true), kept, client, n, p1);
    BeginAlike(env, c, d);
    var rel := (a: Ctl, b: Ctl) => Alike(env, d.attributes, a, b);
    var within := (a: Ctl) => Within(env, d.attributes, a);
    CallsAlike(env, d.attributes, rel, within, kept);
    RunsAlike(Call(env, true), Call(env, false), rel, kept, within, client, n, p1, p2);
  }

  lemma CallsKeep(env: Env, kept: (Ctl, Ctl) -> bool)
    requires EnvOk(env) && forall a, b :: kept(a, b) == Kept(env, a, b)
    ensures forall c :: kept(c, c)
    ensures forall a, b, c {:trigger Chaining(kept, a, b, c)} :: Chaining(kept, a, b, c)
    ensures forall c, op {:trigger StepKeeps(Call(env, true), kept, c, op)} :: StepKeeps(Call(env, true), kept, c, op)
  {
    forall a, b, c
      ensures Chaining(kept, a, b, c)
    {
      if kept(a, b) && kept(b, c) {
        KeptTransitive(env, a, b, c);
      }
    }
    forall c, op
      ensures StepKeeps(Call(env, true), kept, c, op)
    {
      CallKeeps(env, c, op);
    }
  }

  lemma CallsAlike(
      env: Env, last: seq<Attr>, rel: (Ctl, Ctl) -> bool, within: Ctl -> bool, kept: (Ctl, Ctl) -> bool)
    requires EnvOk(env) && forall a, b :: rel(a, b) == Alike(env, last, a, b)
    requires forall a :: within(a) == Within(env, last, a)
    requires forall a, b :: kept(a, b) == Kept(env, a, b)
    ensures forall s, t {:trigger Backward(kept, within, s, t)} :: Backward(kept, within, s, t)
    ensures forall s1, s2, op {:trigger StepsAlike(Call(env, true), Call(env, false), rel, within, s1, s2, op)} ::
              StepsAlike(Call(env, true), Call(env, false), rel, within, s1, s2, op)
  {
    forall s: Ctl, t: Ctl
      ensures Backward(kept, within, s, t)
    {
      if !env.canonical && kept(s, t) && within(t) {
        EndsTransitive(last, t.attributes, s.attributes, |t.attributes| - |s.attributes|, |last| - |t.attributes|);
      }
    }
    forall s1: Ctl, s2: Ctl, op: Op
      ensures StepsAlike(Call(env, true), Call(env, false), rel, within, s1, s2, op)
    {
      if rel(s1, s2) && within(Call(env, true)(s1, op).next) {
        SaysAlike(env, last, s1, s2, op);
        CallAlike(env, last, s1, s2, op);
      }
    }
  }
}
