/** What the elements that nPVR/stdsoap2.cpp writes are read as, in the names of SOAP 1.1 and 1.2. */
module ElementTags {
  import opened Bytes
  import opened Chains
  import opened Graphs
  import opened Attributes
  import opened Escapes
  import opened XmlTokens
  import opened TextRoundTrip
  import opened TwoPasses
  import Serializing
  import opened StartTags
  import opened StartReading
  import XmlReading

  lemma {:induction false} LettersAre(s: string)
    ensures Raw(s) == Letters(s)
  {
    if s != "" {
      LettersAre(s[1..]);
    }
  }

  /** A number as it is printed */
  function Digits(n: nat): string {
    (if n < 10 then "" else Digits(n / 10)) + ["0123456789"[n % 10]]
  }

  function Decimal(n: int): string {
    if n < 0 then "-" + Digits(-n) else Digits(n)
  }

  lemma {:induction false} AsStringAppend(a: seq<Byte>, b: seq<Byte>)
    ensures AsString(a + b) == AsString(a) + AsString(b)
  {
    if a == [] {
      assert a + b == b;
    } else {
      AsStringAppend(a[1..], b);
      FirstAndRest(a, b);
    }
  }

  lemma OneDigit(d: nat)
    requires d < 10
    ensures AsString([48 + d]) == ["0123456789"[d]]
  {
    assert [48 + d][1..] == [];
  }

  lemma {:induction false} DigitsAre(n: nat)
    ensures AsString(Dec(n)) == Digits(n)
  {
    OneDigit(n % 10);
    if n >= 10 {
      DigitsAre(n / 10);
      AsStringAppend(Dec(n / 10), [48 + n % 10]);
    }
  }

  lemma DecimalIs(n: int)
    ensures AsString(DecInt(n)) == Decimal(n)
  {
    if n < 0 {
      DigitsAre(-n);
      AsStringAppend([45], Dec(-n));
      assert [45][1..] == [];
      assert AsString([45]) == "-";
    } else {
      DigitsAre(n);
    }
  }

  /** The position of an item in an array of several dimensions */
  function Places(ps: seq<int>): string
    requires ps != []
  {
    if |ps| == 1 then Decimal(ps[0]) else Places(ps[..|ps| - 1]) + "," + Decimal(ps[|ps| - 1])
  }

  lemma Joined(a: seq<Byte>, b: Byte, c: seq<Byte>)
    ensures AsString(a + [b] + c) == AsString(a) + [b as char] + AsString(c)
  {
    AsStringAppend(a + [b], c);
    AsStringAppend(a, [b]);
    assert [b][1..] == [];
  }

  lemma PositionsUnfold(ps: seq<int>)
    requires ps != []
    ensures AsString(Positions(ps)) ==
            AsString(Positions(ps[..|ps| - 1])) + (if |ps| == 1 then "[" else ",") + Decimal(ps[|ps| - 1])
  {
    DecimalIs(ps[|ps| - 1]);
    Joined(Positions(ps[..|ps| - 1]), if |ps| == 1 then 91 else 44, DecInt(ps[|ps| - 1]));
  }

  lemma PlacesOne(n: int)
    ensures AsString(Positions([n])) == "[" + Places([n])
  {
    PositionsUnfold([n]);
    assert [n][..0] == [];
  }

  lemma PlacesMore(ps: seq<int>)
    requires |ps| > 1 && AsString(Positions(ps[..|ps| - 1])) == "[" + Places(ps[..|ps| - 1])
    ensures AsString(Positions(ps)) == "[" + Places(ps)
  {
    PositionsUnfold(ps);
    JoinedNext(Places(ps[..|ps| - 1]), Decimal(ps[|ps| - 1]));
  }

  lemma {:induction false} PlacesAre(ps: seq<int>)
    requires ps != []
    ensures AsString(Positions(ps)) == "[" + Places(ps)
  {
    if |ps| == 1 {
      PlacesOne(ps[0]);
      assert ps == [ps[0]];
    } else {
      PlacesAre(ps[..|ps| - 1]);
      PlacesMore(ps);
    }
  }

  lemma JoinedNext(a: string, b: string)
    ensures ("[" + a) + "," + b == "[" + (a + "," + b)
  {
  }

  /** An attribute in the terms of a caller */
  datatype Pair = Pair(name: string, value: Option<string>)

  function GivenOf(p: Pair): Given {
    Given(Letters(p.name), if p.value.Some? then Some(Letters(p.value.value)) else None)
  }

  function Givens(ps: seq<Pair>): (gs: seq<Given>)
    ensures |gs| == |ps|
  {
    seq(|ps|, i requires 0 <= i < |ps| => GivenOf(ps[i]))
  }

  lemma GivensAppend(a: seq<Pair>, b: seq<Pair>)
    ensures Givens(a + b) == Givens(a) + Givens(b)
  {
  }

  /** The attributes among pieces */
  function Pairs(ps: Pieces): seq<Pair> {
    match ps
    case Skip => []
    case Just(p) => if p.Attribute? then [Pair(p.name, p.value)] else []
    case Then(first, second) => Pairs(first) + Pairs(second)
  }

  predicate OnlyAttributes(ps: Pieces) {
    match ps
    case Skip => true
    case Just(p) => p.Attribute?
    case Then(first, second) => OnlyAttributes(first) && OnlyAttributes(second)
  }

  /** A list with attributes set one after the other */
  function SetAll(l: seq<Attr>, ps: seq<Pair>): seq<Attr> {
    if ps == [] then l
    else
      var last := ps[|ps| - 1];
      SetAttr(SetAll(l, ps[..|ps| - 1]), true, last.name, last.value)
  }

  lemma {:induction false} SetAllAppend(l: seq<Attr>, a: seq<Pair>, b: seq<Pair>)
    ensures SetAll(l, a + b) == SetAll(SetAll(l, a), b)
  {
    if b == [] {
      assert a + b == a;
    } else {
      var r := b[..|b| - 1];
      SetAllAppend(l, a, r);
      assert (a + b)[..|a + b| - 1] == a + r;
    }
  }

  lemma OneText(name: string, value: Option<string>)
    ensures AttributeText(name, value) == AllText(Givens([Pair(name, value)]), false)
  {
    var g := Givens([Pair(name, value)]);
    LettersAre(name);
    if value.Some? {
      LettersAre(value.value);
    }
    assert g[1..] == [] && AllText(g, false) == GivenText(g[0], false) + [];
    assert g[0] == GivenOf(Pair(name, value));
    assert AttributeText(name, value) == GivenText(g[0], false);
  }

  /** Attributes are written one after the other, or set when the order is canonical. */
  lemma {:induction false} AttributesText(l: seq<Attr>, ps: Pieces)
    requires OnlyAttributes(ps)
    ensures TextOf(false, l, ps) == AllText(Givens(Pairs(ps)), false) && ListAfter(false, l, ps) == l
    ensures TextOf(true, l, ps) == [] && ListAfter(true, l, ps) == SetAll(l, Pairs(ps))
    decreases ps
  {
    match ps {
      case Skip =>
      case Just(p) =>
        OneText(p.name, p.value);
        assert Pairs(ps)[..0] == [];
      case Then(first, second) =>
        AttributesText(l, first);
        AttributesText(l, second);
        AttributesText(SetAll(l, Pairs(first)), second);
        GivensAppend(Pairs(first), Pairs(second));
        AllTextAppend(Givens(Pairs(first)), Givens(Pairs(second)), false);
        SetAllAppend(l, Pairs(first), Pairs(second));
    }
  }

  /** The attributes that callers have set and that are to be seen */
  function Shown(l: seq<Attr>): seq<Pair> {
    if l == [] then []
    else
      var a := l[|l| - 1];
      Shown(l[..|l| - 1]) + if a.visible == 0 then [] else [Pair(a.name, if a.visible == 2 then a.value else None)]
  }

  lemma LastText(a: Attr, canonical: bool)
    ensures AttrText(a, canonical) == AllText(Givens([Pair(a.name, if a.visible == 2 then a.value else None)]), canonical)
  {
    var p := Pair(a.name, if a.visible == 2 then a.value else None);
    var g := Givens([p]);
    LettersAre(a.name);
    if a.value.Some? {
      LettersAre(a.value.value);
    }
    assert g[1..] == [] && AllText(g, canonical) == GivenText(g[0], canonical) + [];
    assert g[0] == GivenOf(p);
    assert AttrText(a, canonical) == GivenText(g[0], canonical);
  }

  lemma {:induction false} ShownText(l: seq<Attr>, canonical: bool)
    ensures VisibleText(l, canonical) == AllText(Givens(Shown(l)), canonical)
  {
    if l != [] {
      var a, r := l[|l| - 1], l[..|l| - 1];
      ShownText(r, canonical);
      if a.visible != 0 {
        var p := Pair(a.name, if a.visible == 2 then a.value else None);
        LastText(a, canonical);
        GivensAppend(Shown(r), [p]);
        AllTextAppend(Givens(Shown(r)), Givens([p]), canonical);
      } else {
        assert Shown(r) + [] == Shown(r) && VisibleText(r, canonical) + [] == VisibleText(r, canonical);
      }
    }
  }

  /** The declarations of the first element, from an entry of the table on */
  function DeclaredBy(table: seq<Ns>): seq<Pair> {
    if table == [] then []
    else
      var n := table[0];
      (if n.id == "" then []
       else if n.out.Some? then [Pair("xmlns:" + n.id, n.out)]
       else if n.ns.Some? then [Pair("xmlns:" + n.id, n.ns)]
       else []) + DeclaredBy(table[1..])
  }

  function Declared(env: Env, f: Flags): seq<Pair> {
    if f.ns || env.namespaces.None? then [] else DeclaredBy(env.namespaces.value)
  }

  function Named(id: int, typ: Option<string>): seq<Pair> {
    (if id > 0 then [Pair("id", Some("_" + Decimal(id)))] else [])
    + if typ.Some? && typ.value != "" then [Pair("xsi:type", typ)] else []
  }

  function Placed(f: Flags): seq<Pair> {
    if f.isNull && f.position != [] then [Pair("SOAP-ENC:position", Some("[" + Places(f.position) + "]"))] else []
  }

  function Addressed(env: Env): seq<Pair> {
    if env.actor.None? || env.actor.value == "" then []
    else if env.version == 2 then [Pair("SOAP-ENV:role", env.actor)]
    else [Pair("SOAP-ENV:actor", env.actor)]
  }

  function Demanded(env: Env, f: Flags): seq<Pair> {
    if f.mustUnderstand then Addressed(env) + [Pair("SOAP-ENV:mustUnderstand", Some(if env.version == 2 then "true" else "1"))]
    else []
  }

  function Styled(env: Env, f: Flags): seq<Pair>
    requires EnvOk(env)
  {
    if !f.encoding || f.encodingStyle.None? || env.namespaces.None? then []
    else if f.encodingStyle.value != "" then [Pair("SOAP-ENV:encodingStyle", f.encodingStyle)]
    else
      var n := env.namespaces.value[1];
      [Pair("SOAP-ENV:encodingStyle", if n.out.Some? then n.out else n.ns)]
  }

  /** The attributes that an element is started with */
  function Expected(env: Env, f: Flags, id: int, typ: Option<string>): seq<Pair>
    requires EnvOk(env)
  {
    Declared(env, f) + Named(id, typ) + Placed(f) + (Demanded(env, f) + Styled(env, f))
  }

  lemma {:induction false} DeclaredAre(table: seq<Ns>)
    ensures OnlyAttributes(Declarations(table)) && Pairs(Declarations(table)) == DeclaredBy(table)
  {
    if table != [] {
      DeclaredAre(table[1..]);
    }
  }

  lemma NamedAre(id: int, typ: Option<string>)
    ensures OnlyAttributes(IdAndType(id, typ)) && Pairs(IdAndType(id, typ)) == Named(id, typ)
  {
    if id > 0 {
      DigitsAre(id);
    }
  }

  lemma PlacedAre(f: Flags)
    ensures OnlyAttributes(Position(f)) && Pairs(Position(f)) == Placed(f)
  {
    if f.position != [] {
      PlacesAre(f.position);
    }
  }

  lemma DemandedAre(env: Env, f: Flags)
    ensures OnlyAttributes(Understand(env, f)) && Pairs(Understand(env, f)) == Demanded(env, f)
  {
  }

  lemma StyledAre(env: Env, f: Flags)
    requires EnvOk(env)
    ensures OnlyAttributes(Encoding(env, f)) && Pairs(Encoding(env, f)) == Styled(env, f)
  {
  }

  /** Where a message begins, an instruction comes before the first tag, unless the order is canonical. */
  function Before(env: Env, f: Flags): seq<Byte> {
    if f.ns || env.canonical then [] else Letters(env.prolog)
  }

  lemma TwoText(canonical: bool, l: seq<Attr>, ps: Pieces, qs: Pieces)
    ensures TextOf(canonical, l, Then(ps, qs)) == TextOf(canonical, l, ps) + TextOf(canonical, ListAfter(canonical, l, ps), qs)
    ensures ListAfter(canonical, l, Then(ps, qs)) == ListAfter(canonical, ListAfter(canonical, l, ps), qs)
  {
  }

  lemma CharsText(canonical: bool, l: seq<Attr>, b: seq<Byte>)
    ensures TextOf(canonical, l, Just(Chars(b))) == b && ListAfter(canonical, l, Just(Chars(b))) == l
  {
  }

  lemma HeadingText(env: Env, f: Flags, l: seq<Attr>, tag: string)
    ensures TextOf(env.canonical, l, Heading(env, f, tag).first) == Before(env, f) + ([60] + Letters(tag))
    ensures ListAfter(env.canonical, l, Heading(env, f, tag).first) == l
  {
    LettersAre(tag);
    LettersAre(env.prolog);
    CharsText(env.canonical, l, Letters(tag));
    CharsText(env.canonical, l, [60]);
    CharsText(env.canonical, l, Letters(env.prolog));
    TwoText(env.canonical, l, Just(Chars([60])), Just(Chars(Letters(tag))));
    TwoText(env.canonical, l, Heading(env, f, tag).first.first, Heading(env, f, tag).first.second);
  }

  /** The attributes of a start tag that pieces begin: those of the pieces and then those set before, or all in order */
  function Together(env: Env, l: seq<Attr>, ps: seq<Pair>): seq<Pair> {
    if env.canonical then Shown(SetAll(l, ps)) else ps + Shown(l)
  }

  /** What has been written after a piece of text, and the list as it is left */
  ghost predicate Begun(env: Env, l: seq<Attr>, ps: Pieces, before: seq<Byte>, pairs: seq<Pair>) {
    && TextOf(env.canonical, l, ps) == before + (if env.canonical then [] else AllText(Givens(pairs), false))
    && ListAfter(env.canonical, l, ps) == if env.canonical then SetAll(l, pairs) else l
  }

  lemma BegunNext(env: Env, l: seq<Attr>, ps: Pieces, before: seq<Byte>, a: seq<Pair>, qs: Pieces, b: seq<Pair>)
    requires Begun(env, l, ps, before, a) && OnlyAttributes(qs) && Pairs(qs) == b
    ensures Begun(env, l, Then(ps, qs), before, a + b)
  {
    AttributesText(ListAfter(env.canonical, l, ps), qs);
    TwoText(env.canonical, l, ps, qs);
    GivensAppend(a, b);
    if env.canonical {
      SetAllAppend(l, a, b);
      assert (before + []) + [] == before + [];
    } else {
      AllTextAppend(Givens(a), Givens(b), false);
      Regroup(before, AllText(Givens(a), false), AllText(Givens(b), false));
    }
  }

  lemma HeadingBegun(env: Env, f: Flags, l: seq<Attr>, tag: string)
    ensures Begun(env, l, Heading(env, f, tag), Before(env, f) + ([60] + Letters(tag)), Declared(env, f))
  {
    var before, rest := Before(env, f) + ([60] + Letters(tag)), Heading(env, f, tag).second;
    HeadingText(env, f, l, tag);
    if env.namespaces.Some? {
      DeclaredAre(env.namespaces.value);
    }
    AttributesText(l, rest);
    TwoText(env.canonical, l, Heading(env, f, tag).first, rest);
    assert before + [] == before;
  }

  /** soap_element writes the start of a tag with the attributes that are expected. */
  lemma ElementBegun(env: Env, f: Flags, l: seq<Attr>, tag: string, id: int, typ: Option<string>)
    requires EnvOk(env)
    ensures Begun(env, l, Element(env, f, tag, id, typ), Before(env, f) + ([60] + Letters(tag)), Expected(env, f, id, typ))
  {
    var before := Before(env, f) + ([60] + Letters(tag));
    var h, n, p := Heading(env, f, tag), IdAndType(id, typ), Position(f);
    HeadingBegun(env, f, l, tag);
    NamedAre(id, typ);
    BegunNext(env, l, h, before, Declared(env, f), n, Named(id, typ));
    PlacedAre(f);
    BegunNext(env, l, Then(h, n), before, Declared(env, f) + Named(id, typ), p, Placed(f));
    DemandedAre(env, f);
    StyledAre(env, f);
    BegunNext(env, l, Then(Then(h, n), p), before, Declared(env, f) + Named(id, typ) + Placed(f),
              Then(Understand(env, f), Encoding(env, f)), Demanded(env, f) + Styled(env, f));
  }

  /** An end tag, unless the name begins with a dash */
  function EndText(tag: string): seq<Byte> {
    if tag != "" && tag[0] == '-' then [] else [60, 47] + (Letters(tag) + [62])
  }

  lemma EndTagText(tag: string, canonical: bool, l: seq<Attr>)
    ensures TextOf(canonical, l, EndTag(tag)) == EndText(tag) && ListAfter(canonical, l, EndTag(tag)) == l
  {
    LettersAre(tag);
    CharsText(canonical, l, [60, 47]);
    CharsText(canonical, l, Letters(tag));
    CharsText(canonical, l, [62]);
    TwoText(canonical, l, Just(Chars(Letters(tag))), Just(Chars([62])));
    TwoText(canonical, l, Just(Chars([60, 47])), Then(Just(Chars(Letters(tag))), Just(Chars([62]))));
  }

  /** What comes behind the attributes: the tag is that of an element without content. */
  function Closing(env: Env, tag: Option<string>): seq<Byte> {
    if tag.None? then [62] else if env.canonical then [62] + EndText(tag.value) else [47, 62]
  }

  lemma ClosingText(env: Env, l: seq<Attr>, tag: Option<string>)
    ensures TextOf(env.canonical, l, StartEnd(env, tag)) ==
            AllText(Givens(Shown(l)), env.canonical) + Closing(env, tag)
  {
    ShownText(l, env.canonical);
    TwoText(env.canonical, l, Just(SetAttributes), StartEnd(env, tag).second);
    CharsText(env.canonical, Hidden(l), [62]);
    if tag.Some? {
      CharsText(env.canonical, Hidden(l), [47, 62]);
      EndTagText(tag.value, env.canonical, Hidden(l));
      TwoText(env.canonical, Hidden(l), Just(Chars([62])), EndTag(tag.value));
    }
  }

  /** A start tag: an element, more attributes, and the end of the tag */
  function StartPieces(env: Env, f: Flags, tag: string, id: int, typ: Option<string>, more: Pieces, end: Option<string>): Pieces
    requires EnvOk(env)
  {
    Then(Element(env, f, tag, id, typ), Then(more, StartEnd(env, end)))
  }

  lemma TogetherText(env: Env, l: seq<Attr>, l1: seq<Attr>, before: seq<Byte>, pairs: seq<Pair>)
    requires l1 == if env.canonical then SetAll(l, pairs) else l
    ensures before + (if env.canonical then [] else AllText(Givens(pairs), false)) + AllText(Givens(Shown(l1)), env.canonical) ==
            before + AllText(Givens(Together(env, l, pairs)), env.canonical)
  {
    if env.canonical {
      assert before + [] == before;
    } else {
      GivensAppend(pairs, Shown(l));
      AllTextAppend(Givens(pairs), Givens(Shown(l)), false);
      Regroup(before, AllText(Givens(pairs), false), AllText(Givens(Shown(l)), false));
    }
  }

  /** The text of a start tag */
  lemma StartText(
      env: Env, f: Flags, l: seq<Attr>, tag: string, id: int, typ: Option<string>, more: Pieces, end: Option<string>)
    requires EnvOk(env) && OnlyAttributes(more)
    ensures
      var given := Givens(Together(env, l, Expected(env, f, id, typ) + Pairs(more)));
      TextOf(env.canonical, l, StartPieces(env, f, tag, id, typ, more, end)) ==
      Before(env, f) + ([60] + (Letters(tag) + (AllText(given, env.canonical) + Closing(env, end))))
  {
    var pairs := Expected(env, f, id, typ) + Pairs(more);
    var start := Then(Element(env, f, tag, id, typ), more);
    var before := Before(env, f) + ([60] + Letters(tag));
    ElementBegun(env, f, l, tag, id, typ);
    BegunNext(env, l, Element(env, f, tag, id, typ), before, Expected(env, f, id, typ), more, Pairs(more));
    var l1 := ListAfter(env.canonical, l, start);
    ClosingText(env, l1, end);
    TogetherText(env, l, l1, before, pairs);
    Regroup(before + (if env.canonical then [] else AllText(Givens(pairs), false)), AllText(Givens(Shown(l1)), env.canonical),
            Closing(env, end));
    Rebracket(env, l, Element(env, f, tag, id, typ), more, StartEnd(env, end));
    AllFive(Before(env, f), Letters(tag), AllText(Givens(Together(env, l, pairs)), env.canonical), Closing(env, end));
  }

  lemma AllFive(before: seq<Byte>, tag: seq<Byte>, text: seq<Byte>, closing: seq<Byte>)
    ensures (before + ([60] + tag)) + text + closing == before + ([60] + (tag + (text + closing)))
  {
  }

  lemma Rebracket(env: Env, l: seq<Attr>, a: Pieces, b: Pieces, c: Pieces)
    ensures TextOf(env.canonical, l, Then(a, Then(b, c))) ==
            TextOf(env.canonical, l, Then(a, b)) + TextOf(env.canonical, ListAfter(env.canonical, l, Then(a, b)), c)
  {
    var l1 := ListAfter(env.canonical, l, a);
    var l2 := ListAfter(env.canonical, l1, b);
    TwoText(env.canonical, l, a, Then(b, c));
    TwoText(env.canonical, l1, b, c);
    TwoText(env.canonical, l, a, b);
    Regroup(TextOf(env.canonical, l, a), TextOf(env.canonical, l1, b), TextOf(env.canonical, l2, c));
  }

  /** An instruction without brackets in it */
  predicate IsInstruction(s: seq<Byte>) {
    && |s| >= 4 && s[..2] == [60, 63] && s[|s| - 2..] == [63, 62]
    && 60 !in s[2..|s| - 2] && 62 !in s[2..|s| - 2]
  }

  /** What is written can be read: names are names, values are C strings, and the prolog is an instruction. */
  ghost predicate Readable(env: Env, f: Flags, l: seq<Attr>, tag: string, pairs: seq<Pair>) {
    && TagBytes(Letters(tag)) && AllWritable(Givens(Together(env, l, pairs)))
    && (f.ns || env.canonical || IsInstruction(Letters(env.prolog)))
  }

  lemma BeforeSkipped(env: Env, f: Flags, w: seq<Byte>, entities: Entities)
    requires f.ns || env.canonical || IsInstruction(Letters(env.prolog))
    ensures StartOf(Before(env, f) + w, entities) == StartOf(w, entities)
  {
    var s := Before(env, f);
    if s == [] {
      assert s + w == w;
    } else {
      assert s == [60, 63] + s[2..|s| - 2] + [63, 62];
      PrologSkipped(s[2..|s| - 2], w, entities);
    }
  }

  /** Behind a start tag: the end tag if there is no content and the order is canonical */
  function Behind(env: Env, end: Option<string>, rest: seq<Byte>): seq<Byte> {
    (if env.canonical && end.Some? then EndText(end.value) else []) + rest
  }

  lemma ClosingIs(env: Env, end: Option<string>, rest: seq<Byte>)
    ensures Closing(env, end) + rest == TagEnd(end.Some? && !env.canonical) + Behind(env, end, rest)
  {
    assert [] + rest == rest;
  }

  lemma AllSix(before: seq<Byte>, tag: seq<Byte>, text: seq<Byte>, closing: seq<Byte>, rest: seq<Byte>)
    ensures (before + ([60] + (tag + (text + closing)))) + rest == before + ([60] + (tag + (text + (closing + rest))))
  {
  }

  /** A start tag is read as its name and its attributes, in the order in which they were to be written. */
  lemma StartIsRead(
      env: Env, f: Flags, l: seq<Attr>, tag: string, id: int, typ: Option<string>, more: Pieces, end: Option<string>,
      rest: seq<Byte>, entities: Entities)
    requires EnvOk(env) && OnlyAttributes(more) && Readable(env, f, l, tag, Expected(env, f, id, typ) + Pairs(more))
    ensures StartOf(TextOf(env.canonical, l, StartPieces(env, f, tag, id, typ, more, end)) + rest, entities) ==
            Some(Start(Letters(tag), Givens(Together(env, l, Expected(env, f, id, typ) + Pairs(more))),
                       end.Some? && !env.canonical, Behind(env, end, rest)))
  {
    var given := Givens(Together(env, l, Expected(env, f, id, typ) + Pairs(more)));
    var text := AllText(given, env.canonical);
    StartText(env, f, l, tag, id, typ, more, end);
    AllSix(Before(env, f), Letters(tag), text, Closing(env, end), rest);
    ClosingIs(env, end, rest);
    BeforeSkipped(env, f, [60] + (Letters(tag) + (text + (Closing(env, end) + rest))), entities);
    StartRead(Letters(tag), given, env.canonical, end.Some? && !env.canonical, Behind(env, end, rest), entities);
  }

  /** An element begins with the attributes that are expected of it. */
  lemma ElementIsRead(
      env: Env, f: Flags, l: seq<Attr>, tag: string, id: int, typ: Option<string>, rest: seq<Byte>, entities: Entities)
    requires EnvOk(env) && Readable(env, f, l, tag, Expected(env, f, id, typ))
    ensures StartOf(TextOf(env.canonical, l, Then(Element(env, f, tag, id, typ), StartEnd(env, None))) + rest, entities) ==
            Some(Start(Letters(tag), Givens(Together(env, l, Expected(env, f, id, typ))), false, rest))
  {
    var e, end := Element(env, f, tag, id, typ), StartEnd(env, None);
    assert Expected(env, f, id, typ) + [] == Expected(env, f, id, typ);
    StartIsRead(env, f, l, tag, id, typ, Skip, None, rest, entities);
    TwoText(env.canonical, l, e, end);
    TwoText(env.canonical, l, e, Then(Skip, end));
    TwoText(env.canonical, ListAfter(env.canonical, l, e), Skip, end);
    var text := TextOf(env.canonical, ListAfter(env.canonical, l, e), end);
    assert [] + text == text;
    assert Behind(env, None, rest) == rest;
  }

  /** Whether a null pointer is written as an element */
  predicate NullWanted(env: Env, f: Flags, l: seq<Attr>, id: int) {
    || (exists i :: 0 <= i < |l| && l[i].visible != 0)
    || (env.version == 2 && f.position != []) || id > 0 || env.nil
  }

  function Nil(f: Flags): seq<Pair> {
    if f.inHeader || f.encodingStyle.None? then [] else [Pair("xsi:nil", Some("true"))]
  }

  /** A null pointer is written as an empty element that says so, or not at all. */
  lemma NullIsRead(
      env: Env, f: Flags, l: seq<Attr>, tag: string, id: int, typ: Option<string>, rest: seq<Byte>, entities: Entities)
    requires EnvOk(env) && Readable(env, f, l, tag, Expected(env, f, id, typ) + Nil(f))
    ensures
      var text := TextOf(env.canonical, l, NullElement(env, f, AnyVisible(l), tag, id, typ));
      if NullWanted(env, f, l, id) then
        StartOf(text + rest, entities) ==
        Some(Start(Letters(tag), Givens(Together(env, l, Expected(env, f, id, typ) + Nil(f))),
                   !env.canonical, Behind(env, Some(tag), rest)))
      else text == []
  {
    if NullWanted(env, f, l, id) {
      var more := if !f.inHeader && f.encodingStyle.Some? then Just(Attribute(XSI_NIL, Some(TRUE))) else Skip;
      assert NullElement(env, f, AnyVisible(l), tag, id, typ) == StartPieces(env, f, tag, id, typ, more, Some(tag));
      assert Pairs(more) == Nil(f);
      StartIsRead(env, f, l, tag, id, typ, more, Some(tag), rest, entities);
    }
  }

  /** The reference to an element that is written elsewhere with the number n as its id */
  function Reference(env: Env, n: int): Pair {
    if env.version == 2 then Pair("ref", Some("_" + Decimal(n))) else Pair("href", Some("#_" + Decimal(n)))
  }

  /** A pointer that is met again is written as an empty element with a reference. */
  lemma RefIsRead(env: Env, f: Flags, l: seq<Attr>, tag: string, id: int, n: int, rest: seq<Byte>, entities: Entities)
    requires EnvOk(env) && Readable(env, f, l, tag, Expected(env, f, id, None) + [Reference(env, n)])
    ensures StartOf(TextOf(env.canonical, l, ElementRef(env, f, tag, id, n)) + rest, entities) ==
            Some(Start(Letters(tag), Givens(Together(env, l, Expected(env, f, id, None) + [Reference(env, n)])),
                       !env.canonical, Behind(env, Some(tag), rest)))
  {
    DecimalIs(n);
    var p := Reference(env, n);
    var more := Just(Attribute(p.name, p.value));
    assert ElementRef(env, f, tag, id, n) == StartPieces(env, f, tag, id, None, more, Some(tag));
    assert Pairs(more) == [p];
    StartIsRead(env, f, l, tag, id, None, more, Some(tag), rest, entities);
  }

  /** Among some attributes, one has a name and a value, and no other has this name. */
  ghost predicate Carries(ps: seq<Pair>, name: string, value: string) {
    Pair(name, Some(value)) in ps && forall p :: p in ps && Letters(p.name) == Letters(name) ==> p == Pair(name, Some(value))
  }

  ghost predicate Lacks(ps: seq<Pair>, name: string) {
    forall p :: p in ps ==> Letters(p.name) != Letters(name)
  }

  lemma {:induction false} IdFound(ps: seq<Pair>, value: string)
    requires Carries(ps, "id", value)
    ensures IdOf(Givens(ps)) == Some([35] + Letters(value))
  {
    var r, last := ps[..|ps| - 1], ps[|ps| - 1];
    assert Letters("id") == [105, 100];
    assert Givens(ps)[..|ps| - 1] == Givens(r) && Givens(ps)[|ps| - 1] == GivenOf(last);
    assert last in ps;
    if Letters(last.name) != [105, 100] {
      assert ps == r + [last];
      IdFound(r, value);
    }
  }

  lemma {:induction false} HrefFound(ps: seq<Pair>, value: string, refs: bool)
    requires Carries(ps, "href", value) && Lacks(ps, "ref")
    ensures HrefOf(Givens(ps), refs) == Some(Letters(value))
  {
    var r, last := ps[..|ps| - 1], ps[|ps| - 1];
    assert Letters("href") == [104, 114, 101, 102] && Letters("ref") == [114, 101, 102];
    assert Givens(ps)[..|ps| - 1] == Givens(r) && Givens(ps)[|ps| - 1] == GivenOf(last);
    assert last in ps;
    if Letters(last.name) != [104, 114, 101, 102] {
      assert ps == r + [last];
      HrefFound(r, value, refs);
    }
  }

  lemma {:induction false} RefFound(ps: seq<Pair>, value: string)
    requires Carries(ps, "ref", value) && Lacks(ps, "href")
    ensures HrefOf(Givens(ps), true) == Some([35] + Letters(value))
  {
    var r, last := ps[..|ps| - 1], ps[|ps| - 1];
    assert Letters("href") == [104, 114, 101, 102] && Letters("ref") == [114, 101, 102];
    assert Givens(ps)[..|ps| - 1] == Givens(r) && Givens(ps)[|ps| - 1] == GivenOf(last);
    assert last in ps;
    if Letters(last.name) != [114, 101, 102] {
      assert ps == r + [last];
      RefFound(r, value);
    }
  }

  ghost predicate Names(ps: seq<Pair>, name: string) {
    exists p :: p in ps && p.name == name
  }

  /** An attribute of a list is seen as p. */
  ghost predicate Seen(l: seq<Attr>, p: Pair) {
    Has(l, p.name)
    && var a := l[IndexOf(l, p.name)];
       a.visible != 0 && p.value == if a.visible == 2 then a.value else None
  }

  lemma SeenNext(l: seq<Attr>, p: Pair)
    requires Unique(l) && l != []
    ensures
      var r, a := l[..|l| - 1], l[|l| - 1];
      if a.name == p.name then
        !Has(r, p.name) && (Seen(l, p) <==> a.visible != 0 && p.value == if a.visible == 2 then a.value else None)
      else Seen(l, p) <==> Seen(r, p)
  {
    var r, a := l[..|l| - 1], l[|l| - 1];
    if a.name == p.name {
      Only(l, |l| - 1);
    } else if Has(r, p.name) {
      var i := IndexOf(r, p.name);
      assert l[i] == r[i];
      Only(l, i);
    }
  }

  lemma ShownNext(l: seq<Attr>, p: Pair)
    requires l != []
    ensures
      var a := l[|l| - 1];
      p in Shown(l) <==> p in Shown(l[..|l| - 1]) || (a.visible != 0 && p == Pair(a.name, if a.visible == 2 then a.value else None))
  {
  }

  lemma {:induction false} ShownIs(l: seq<Attr>, p: Pair)
    requires Unique(l)
    ensures p in Shown(l) <==> Seen(l, p)
  {
    if l != [] {
      SeenNext(l, p);
      ShownNext(l, p);
      ShownIs(l[..|l| - 1], p);
    }
  }

  lemma Only(l: seq<Attr>, i: nat)
    requires Unique(l) && i < |l|
    ensures Has(l, l[i].name) && IndexOf(l, l[i].name) == i
  {
    assert Has(l, l[i].name);
  }

  /** Attributes that are not set stay, and those that are set are the only new ones. */
  lemma {:induction false} SetAllKeeps(l: seq<Attr>, ps: seq<Pair>, name: string)
    requires Unique(l)
    ensures
      var m := SetAll(l, ps);
      && Unique(m) && (Has(m, name) <==> Has(l, name) || Names(ps, name))
      && (Has(l, name) && !Names(ps, name) ==> m[IndexOf(m, name)] == l[IndexOf(l, name)])
  {
    if ps != [] {
      var r, last := ps[..|ps| - 1], ps[|ps| - 1];
      SetAllKeeps(l, r, name);
      SetAttrStores(SetAll(l, r), true, last.name, last.value);
      assert ps == r + [last];
    }
  }

  /** What is set last under a name is what is stored. */
  lemma {:induction false} SetAllStores(l: seq<Attr>, ps: seq<Pair>, p: Pair)
    requires Unique(l) && p in ps && p.value.Some? && forall q :: q in ps && q.name == p.name ==> q == p
    ensures Seen(SetAll(l, ps), p)
  {
    var r, last := ps[..|ps| - 1], ps[|ps| - 1];
    assert ps == r + [last];
    SetAllKeeps(l, r, p.name);
    SetAttrStores(SetAll(l, r), true, last.name, last.value);
    if last.name != p.name {
      SetAllStores(l, r, p);
    }
  }

  /** The attributes of a start tag lack a name if those set before and those expected lack it. */
  lemma TogetherLacks(env: Env, l: seq<Attr>, ps: seq<Pair>, name: string)
    requires (env.canonical ==> Unique(l)) && Lacks(ps, name) && Lacks(Shown(l), name)
    ensures Lacks(Together(env, l, ps), name)
  {
    if env.canonical {
      forall p | p in Shown(SetAll(l, ps))
        ensures Letters(p.name) != Letters(name)
      {
        FromWhere(l, ps, p);
      }
    }
  }

  /** An attribute that is seen has been set by name, or was seen before. */
  lemma FromWhere(l: seq<Attr>, ps: seq<Pair>, p: Pair)
    requires Unique(l) && p in Shown(SetAll(l, ps))
    ensures Names(ps, p.name) || p in Shown(l)
  {
    SetAllKeeps(l, ps, p.name);
    ShownIs(SetAll(l, ps), p);
    ShownIs(l, p);
  }

  /** An attribute that is expected is among those of the start tag. */
  lemma TogetherCarries(env: Env, l: seq<Attr>, ps: seq<Pair>, name: string, value: string)
    requires (env.canonical ==> Unique(l)) && Carries(ps, name, value) && Lacks(Shown(l), name)
    ensures Carries(Together(env, l, ps), name, value)
  {
    if env.canonical {
      var m, p := SetAll(l, ps), Pair(name, Some(value));
      SetAllStores(l, ps, p);
      SetAllKeeps(l, ps, name);
      ShownIs(m, p);
      forall q | q in Shown(m) && Letters(q.name) == Letters(name)
        ensures q == p
      {
        FromWhere(l, ps, q);
        ShownIs(m, q);
      }
    }
  }

  /** No attribute that is expected of an element is called href or ref, and only one with the number is called id. */
  ghost predicate Proper(ps: seq<Pair>, id: int) {
    forall p :: p in ps ==> p.name != "" && (p.name[0] == 'x' || p.name[0] == 'S' || p == Pair("id", Some("_" + Decimal(id))))
  }

  lemma {:induction false} DeclaredProper(table: seq<Ns>, id: int)
    ensures Proper(DeclaredBy(table), id)
  {
    if table != [] {
      DeclaredProper(table[1..], id);
    }
  }

  lemma BothProper(a: seq<Pair>, b: seq<Pair>, id: int)
    requires Proper(a, id) && Proper(b, id)
    ensures Proper(a + b, id)
  {
  }

  lemma NamedProper(id: int, typ: Option<string>)
    ensures Proper(Named(id, typ), id) && (id > 0 ==> Pair("id", Some("_" + Decimal(id))) in Named(id, typ))
  {
    if id > 0 {
      assert Named(id, typ)[0] == Pair("id", Some("_" + Decimal(id)));
    }
  }

  lemma OthersProper(env: Env, f: Flags, id: int)
    requires EnvOk(env)
    ensures Proper(Placed(f), id) && Proper(Demanded(env, f), id) && Proper(Styled(env, f), id) && Proper(Declared(env, f), id)
  {
    if env.namespaces.Some? {
      DeclaredProper(env.namespaces.value, id);
    }
  }

  lemma ExpectedProper(env: Env, f: Flags, id: int, typ: Option<string>)
    requires EnvOk(env)
    ensures Proper(Expected(env, f, id, typ), id)
    ensures id > 0 ==> Pair("id", Some("_" + Decimal(id))) in Expected(env, f, id, typ)
  {
    NamedProper(id, typ);
    OthersProper(env, f, id);
    BothProper(Declared(env, f), Named(id, typ), id);
    BothProper(Declared(env, f) + Named(id, typ), Placed(f), id);
    BothProper(Demanded(env, f), Styled(env, f), id);
    BothProper(Declared(env, f) + Named(id, typ) + Placed(f), Demanded(env, f) + Styled(env, f), id);
  }

  lemma FirstLetters(p: Pair, id: int)
    requires p.name != "" && (p.name[0] == 'x' || p.name[0] == 'S' || p == Pair("id", Some("_" + Decimal(id))))
    ensures Letters(p.name) != Letters("href") && Letters(p.name) != Letters("ref")
    ensures p != Pair("id", Some("_" + Decimal(id))) ==> Letters(p.name) != Letters("id")
  {
    assert Letters("href")[0] == 104 && Letters("ref")[0] == 114 && Letters("id")[0] == 105;
    assert Letters(p.name)[0] == p.name[0] as int % 256;
  }

  /** The id that is read of an element with a number */
  lemma IdIsRead(env: Env, f: Flags, l: seq<Attr>, n: int, typ: Option<string>)
    requires EnvOk(env) && n > 0 && (env.canonical ==> Unique(l)) && Lacks(Shown(l), "id")
    ensures IdOf(Givens(Together(env, l, Expected(env, f, n, typ)))) == Some(Letters("#_" + Decimal(n)))
  {
    var ps, value := Expected(env, f, n, typ), "_" + Decimal(n);
    ExpectedProper(env, f, n, typ);
    forall p | p in ps && Letters(p.name) == Letters("id")
      ensures p == Pair("id", Some(value))
    {
      FirstLetters(p, n);
    }
    TogetherCarries(env, l, ps, "id", value);
    IdFound(Together(env, l, ps), value);
    HashFirst(value);
    assert "#" + value == "#_" + Decimal(n);
  }

  lemma HashFirst(value: string)
    ensures Letters("#" + value) == [35] + Letters(value)
  {
  }

  lemma ReferenceNames()
    ensures Letters("href") != Letters("ref")
  {
    assert Letters("href")[0] == 104 && Letters("ref")[0] == 114;
  }

  lemma NoReferenceYet(env: Env, f: Flags, name: string)
    requires EnvOk(env) && (name == "href" || name == "ref")
    ensures Lacks(Expected(env, f, 0, None), name)
  {
    ExpectedProper(env, f, 0, None);
    forall q | q in Expected(env, f, 0, None)
      ensures Letters(q.name) != Letters(name)
    {
      FirstLetters(q, 0);
    }
  }

  lemma WithReference(env: Env, f: Flags, n: int)
    requires EnvOk(env)
    ensures
      var ps, p := Expected(env, f, 0, None) + [Reference(env, n)], Reference(env, n);
      Carries(ps, p.name, p.value.value) && Lacks(ps, if env.version == 2 then "href" else "ref")
  {
    var e, p := Expected(env, f, 0, None), Reference(env, n);
    NoReferenceYet(env, f, "href");
    NoReferenceYet(env, f, "ref");
    assert (e + [p])[|e|] == p;
    ReferenceNames();
  }

  /** The href that is read of a reference */
  lemma HrefIsRead(env: Env, f: Flags, l: seq<Attr>, n: int)
    requires EnvOk(env) && (env.canonical ==> Unique(l)) && Lacks(Shown(l), "href") && Lacks(Shown(l), "ref")
    ensures HrefOf(Givens(Together(env, l, Expected(env, f, 0, None) + [Reference(env, n)])), env.version == 2 || env.graph) ==
            Some(Letters("#_" + Decimal(n)))
  {
    var ps, p := Expected(env, f, 0, None) + [Reference(env, n)], Reference(env, n);
    WithReference(env, f, n);
    TogetherCarries(env, l, ps, p.name, p.value.value);
    TogetherLacks(env, l, ps, if env.version == 2 then "href" else "ref");
    ReferenceFound(env, Together(env, l, ps), n);
  }

  lemma ReferenceFound(env: Env, ps: seq<Pair>, n: int)
    requires
      var p := Reference(env, n);
      Carries(ps, p.name, p.value.value) && Lacks(ps, if env.version == 2 then "href" else "ref")
    ensures HrefOf(Givens(ps), env.version == 2 || env.graph) == Some(Letters("#_" + Decimal(n)))
  {
    if env.version == 2 {
      RefFound(ps, "_" + Decimal(n));
      HashFirst("_" + Decimal(n));
      assert "#" + ("_" + Decimal(n)) == "#_" + Decimal(n);
    } else {
      HrefFound(ps, "#_" + Decimal(n), env.graph);
    }
  }

  lemma {:induction false} BytesAgain(b: seq<Byte>)
    ensures Letters(AsString(b)) == b
  {
    if b != [] {
      BytesAgain(b[1..]);
      LettersAppend([b[0] as char], AsString(b[1..]));
    }
  }

  /** Different numbers have different ids. */
  lemma IdsDiffer(m: nat, n: nat)
    requires Letters("#_" + Decimal(m)) == Letters("#_" + Decimal(n))
    ensures m == n
  {
    LettersAppend("#_", Decimal(m));
    LettersAppend("#_", Decimal(n));
    assert Letters(Decimal(m)) == Letters("#_" + Decimal(m))[2..] && Letters(Decimal(n)) == Letters("#_" + Decimal(n))[2..];
    DigitsAre(m);
    DigitsAre(n);
    BytesAgain(Dec(m));
    BytesAgain(Dec(n));
    DecRead(m);
    DecRead(n);
  }

  /** What only the first element has, and what has been asked for one element, is not written again. */
  lemma WrittenOnce(env: Env, f: Flags, id: int, typ: Option<string>)
    requires EnvOk(env)
    ensures Expected(env, AfterElement(env, f), id, typ) == Named(id, typ)
  {
    assert [] + Named(id, typ) + [] + ([] + []) == Named(id, typ);
  }

  /** When nothing has been written for a null pointer, the next element says where it is, and is not for an actor. */
  lemma PlacedAfterNothing(env: Env, f: Flags, l: seq<Attr>, id: int, ps: seq<int>)
    requires EnvOk(env) && !NullWanted(env, f, l, id) && ps != []
    ensures
      var g := AfterNull(env, f, AnyVisible(l), id);
      && Placed(g.(position := ps)) == [Pair("SOAP-ENC:position", Some("[" + Places(ps) + "]"))]
      && Placed(g) == [] && Demanded(env, g) == []
  {
  }

  /** A pointer with a number is met, and then again: the first time nothing is written and the number is returned,
      with which the caller writes the element; the second time a reference to that number is written. */
  lemma MetAgain(
      env: Env, lengthMode: bool, c: Ctl, e: Ctl, p: Ptr, tag: string, id: int, typ: Option<string>,
      tag2: string, id2: int, typ2: Option<string>)
    requires EnvOk(env) && p.p != NULL && id < 0 && id2 < 0
    requires Result(env, lengthMode, c, OpElementId(tag, id, p, typ)) > 0
    requires p in e.pht && e.pht[p] == Next(env, lengthMode, c, OpElementId(tag, id, p, typ)).pht[p]
    ensures Says(env, lengthMode, c, OpElementId(tag, id, p, typ)) == []
    ensures Next(env, lengthMode, c, OpElementId(tag, id, p, typ)).flags == c.flags
    ensures Result(env, lengthMode, e, OpElementId(tag2, id2, p, typ2)) == -1
    ensures Says(env, lengthMode, e, OpElementId(tag2, id2, p, typ2)) ==
            TextOf(env.canonical, e.attributes,
                   ElementRef(env, e.flags, tag2, 0, Result(env, lengthMode, c, OpElementId(tag, id, p, typ))))
  {
  }

  /** The href that is read where a pointer is met again is the id that is read of the element with its number. */
  lemma SharedIsRead(
      env: Env, lengthMode: bool, c: Ctl, e: Ctl, p: Ptr, tag: string, id: int, typ: Option<string>,
      tag2: string, id2: int, typ2: Option<string>, f: Flags, l: seq<Attr>, rest: seq<Byte>, entities: Entities)
    requires EnvOk(env) && p.p != NULL && id < 0 && id2 < 0
    requires Result(env, lengthMode, c, OpElementId(tag, id, p, typ)) > 0
    requires p in e.pht && e.pht[p] == Next(env, lengthMode, c, OpElementId(tag, id, p, typ)).pht[p]
    requires env.canonical ==> Unique(l) && Unique(e.attributes)
    requires Lacks(Shown(l), "id") && Lacks(Shown(e.attributes), "href") && Lacks(Shown(e.attributes), "ref")
    requires
      var n := Result(env, lengthMode, c, OpElementId(tag, id, p, typ));
      && Readable(env, f, l, tag, Expected(env, f, n, typ))
      && Readable(env, e.flags, e.attributes, tag2, Expected(env, e.flags, 0, None) + [Reference(env, n)])
    ensures
      var n := Result(env, lengthMode, c, OpElementId(tag, id, p, typ));
      var first := StartOf(TextOf(env.canonical, l, Then(Element(env, f, tag, n, typ), StartEnd(env, None))) + rest, entities);
      var again := StartOf(Says(env, lengthMode, e, OpElementId(tag2, id2, p, typ2)) + rest, entities);
      && first.Some? && again.Some? && first.value.tag == Letters(tag) && again.value.tag == Letters(tag2)
      && IdOf(first.value.given) == HrefOf(again.value.given, env.version == 2 || env.graph) == Some(Letters("#_" + Decimal(n)))
  {
    var n := Result(env, lengthMode, c, OpElementId(tag, id, p, typ));
    MetAgain(env, lengthMode, c, e, p, tag, id, typ, tag2, id2, typ2);
    ElementIsRead(env, f, l, tag, n, typ, rest, entities);
    IdIsRead(env, f, l, n, typ);
    RefIsRead(env, e.flags, e.attributes, tag2, 0, n, rest, entities);
    HrefIsRead(env, e.flags, e.attributes, n);
  }

  /** An element is begun in the sending pass, and what has been sent is read. */
  method PutAndRead(s: Serializing.Serializer, tag: string, id: int, typ: Option<string>, entities: Entities)
    returns (r: Option<Start>)
    requires s.Valid() && !s.out.lengthMode && Readable(s.env, s.flags, s.attributes, tag, Expected(s.env, s.flags, id, typ))
    modifies s, s.out
    ensures
      var given := Together(s.env, old(s.attributes), Expected(s.env, old(s.flags), id, typ));
      r == Some(Start(Letters(tag), Givens(given), false, []))
  {
    ghost var t0, l0, f := s.out.text, s.attributes, s.flags;
    var n := |s.out.sent|;
    s.PutElement(tag, id, typ);
    ghost var t1, l1 := s.out.text, s.attributes;
    s.PutStartEnd(None);
    ghost var ps := Then(Element(s.env, f, tag, id, typ), StartEnd(s.env, None));
    Serializing.WroteBoth(s.wrote, s.env.canonical, t0, l0, t1, l1, s.out.text, s.attributes,
                          Element(s.env, f, tag, id, typ), StartEnd(s.env, None));
    assert Serializing.AllRule(s.wrote, s.env.canonical, t0, l0, s.out.text, s.attributes, ps);
    var text := s.out.sent[n..];
    assert text == TextOf(s.env.canonical, l0, ps) + [];
    ElementIsRead(s.env, f, l0, tag, id, typ, [], entities);
    var reader := new XmlReading.XmlReader(text, entities);
    var id', href;
    r, id', href := PeekElement(reader, s.env.version == 2 || s.env.graph);
  }

  /** A pointer that has been marked in the sending pass is met again, and what has been sent is read. */
  method PutAgainAndRead(s: Serializing.Serializer, tag: string, id: int, p: Ptr, typ: Option<string>, entities: Entities)
    returns (result: int, r: Option<Start>, href: Option<seq<Byte>>)
    requires s.Valid() && !s.out.lengthMode && p.p != NULL && !s.env.tree && id < 0
    requires p in s.pht && s.pht[p].id > 0 && s.pht[p].mark2 == 1
    requires Readable(s.env, s.flags, s.attributes, tag, Expected(s.env, s.flags, 0, None) + [Reference(s.env, s.pht[p].id)])
    requires (s.env.canonical ==> Unique(s.attributes)) && Lacks(Shown(s.attributes), "href") && Lacks(Shown(s.attributes), "ref")
    modifies s, s.out
    ensures result == -1 && r.Some? && r.value.tag == Letters(tag)
    ensures href == Some(Letters("#_" + Decimal(old(s.pht[p].id))))
  {
    ghost var t0, c := s.out.text, s.Now();
    var n := |s.out.sent|;
    ghost var op, i := OpElementId(tag, id, p, typ), s.pht[p].id;
    result := s.PutElementId(tag, id, p, typ);
    Serializing.DidCall(s.env, s.wrote, false, c, t0, s.Now(), s.out.text, op, result);
    var text := s.out.sent[n..];
    assert text == TextOf(s.env.canonical, c.attributes, ElementRef(s.env, c.flags, tag, 0, i)) + [];
    RefIsRead(s.env, c.flags, c.attributes, tag, 0, i, [], entities);
    HrefIsRead(s.env, c.flags, c.attributes, i);
    var reader := new XmlReading.XmlReader(text, entities);
    var id';
    r, id', href := PeekElement(reader, s.env.version == 2 || s.env.graph);
  }
}
