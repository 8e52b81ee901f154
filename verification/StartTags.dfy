/** The start tag of an element as soap_peek_element of nPVR/stdsoap2.cpp reads it, and as attributes are written. */
module StartTags {
  import opened Bytes
  import opened Escapes
  import opened XmlTokens
  import opened TextRoundTrip

  /** An attribute: its name, and its value if there is one */
  datatype Given = Given(name: seq<Byte>, value: Option<seq<Byte>>)

  /** A start tag; an element that is empty has a slash at the end of it. */
  datatype Start = Start(tag: seq<Byte>, given: seq<Given>, empty: bool, rest: seq<Byte>)

  /** soap_get after a token */
  function Follow(s: Scanned, entities: Entities): Scanned {
    Scan(s.rest, s.cdata, entities)
  }

  /** What is left to read, which every token makes less */
  function Left(s: Scanned): nat {
    if s.c == EOF then 0 else |s.rest| + 1
  }

  /** From the first token on that is no blank */
  function NonBlank(s: Scanned, entities: Entities): (r: Scanned)
    ensures Left(r) <= Left(s) && !IsBlank(r.c)
    decreases Left(s)
  {
    if IsBlank(s.c) then NonBlank(Follow(s, entities), entities) else s
  }

  datatype Word = Word(chars: seq<Byte>, at: Scanned)

  predicate EndsWord(c: int, stops: seq<int>) {
    c <= 32 || c in stops
  }

  /** A name up to a blank, to markup or to one of stops */
  function WordOf(s: Scanned, stops: seq<int>, entities: Entities): (r: Word)
    ensures Left(r.at) <= Left(s) && (r.chars != [] ==> Left(r.at) < Left(s))
    decreases Left(s)
  {
    if EndsWord(s.c, stops) then Word([], s)
    else
      var r := WordOf(Follow(s, entities), stops, entities);
      Word([s.c % 256] + r.chars, r.at)
  }

  lemma {:induction false} ValueShrinks(w: seq<Byte>, d: int, entities: Entities)
    ensures
      var v := ValueTo(w, d, entities);
      v.Some? ==> |v.value.rest| <= |w| && |v.value.s| <= 2 * |w|
    decreases |w|
  {
    var t := CharOf(w, entities);
    if t.Some? && !EndsValue(t.value.c, d) && !(t.value.c == TT && d == 32) {
      ValueShrinks(t.value.rest, d, entities);
    }
  }

  datatype Attributes = Attributes(given: seq<Given>, at: Scanned)

  /** The attributes up to the end of the tag. Values are in quotes; there is no value in what is not followed by one. */
  function AttributesOf(s: Scanned, entities: Entities): (r: Option<Attributes>)
    ensures r.Some? ==> r.value.at.c == GT || r.value.at.c == 47
    decreases Left(s)
  {
    if s.c == EOF then None
    else if s.c == GT || s.c == 47 then Some(Attributes([], s))
    else
      var name := WordOf(s, [61, 47], entities);
      var e := NonBlank(name.at, entities);
      if name.chars == [] then None
      else if e.c != 61 then More(Given(name.chars, None), AttributesOf(e, entities))
      else
        var q := NonBlank(Follow(e, entities), entities);
        ValueShrinks(q.rest, q.c, entities);
        var v := if (q.c == QT || q.c == AP) && !q.cdata then ValueTo(q.rest, q.c, entities) else None;
        if v.None? || v.value.stop == EOF then None
        else
          More(Given(name.chars, Some(v.value.s)),
               AttributesOf(NonBlank(Scan(v.value.rest, false, entities), entities), entities))
  }

  /** The attributes at the start of an input */
  function Tail(w: seq<Byte>, entities: Entities): Option<Attributes> {
    AttributesOf(NonBlank(Scan(w, false, entities), entities), entities)
  }

  function More(g: Given, r: Option<Attributes>): (m: Option<Attributes>)
    ensures m.Some? <==> r.Some?
    ensures r.Some? ==> m.value.at == r.value.at && m.value.given == [g] + r.value.given
  {
    if r.None? then None else Some(Attributes([g] + r.value.given, r.value.at))
  }

  /** soap_peek_element, from the next token on */
  function StartFrom(s: Scanned, entities: Entities): Option<Start> {
    var lt := NonBlank(s, entities);
    if lt.c != LT then None
    else
      var tag := WordOf(NonBlank(Follow(lt, entities), entities), [47], entities);
      var r := AttributesOf(NonBlank(tag.at, entities), entities);
      if r.None? then None
      else if r.value.at.c == GT then Some(Start(tag.chars, r.value.given, false, r.value.at.rest))
      else Some(Start(tag.chars, r.value.given, true, NonBlank(Follow(r.value.at, entities), entities).rest))
  }

  function StartOf(w: seq<Byte>, entities: Entities): Option<Start> {
    StartFrom(Scan(w, false, entities), entities)
  }

  /** The field id: the value of the attribute with that name, behind a hash sign */
  function IdOf(given: seq<Given>): Option<seq<Byte>> {
    if given == [] then None
    else
      var g := given[|given| - 1];
      if g.name == [105, 100] && g.value.Some? then Some([35] + g.value.value) else IdOf(given[..|given| - 1])
  }

  /** The field href: the value of the attribute href, or that of ref behind a hash sign if this is read */
  function HrefOf(given: seq<Given>, refs: bool): Option<seq<Byte>> {
    if given == [] then None
    else
      var g := given[|given| - 1];
      if g.name == [104, 114, 101, 102] && g.value.Some? then g.value
      else if refs && g.name == [114, 101, 102] && g.value.Some? then Some([35] + g.value.value)
      else HrefOf(given[..|given| - 1], refs)
  }

  /** A byte of a name: no blank, no quote, and none of & / < = > */
  predicate NameByte(b: Byte) {
    b > 32 && b != 34 && b != 38 && b != 39 && b != 47 && b != 60 && b != 61 && b != 62
  }

  predicate NameBytes(s: seq<Byte>) {
    s != [] && forall i :: 0 <= i < |s| ==> NameByte(s[i])
  }

  /** The name of an element, which is not taken for the start of a declaration or an instruction */
  predicate TagBytes(s: seq<Byte>) {
    NameBytes(s) && s[0] != 33 && s[0] != 63 && s[0] != 37
  }

  /** An attribute that can be written: a C string has no NUL in it. */
  predicate Writable(g: Given) {
    NameBytes(g.name) && (g.value.Some? ==> 0 !in g.value.value)
  }

  predicate AllWritable(given: seq<Given>) {
    forall i :: 0 <= i < |given| ==> Writable(given[i])
  }

  /** An attribute as it is written */
  function GivenText(g: Given, canonical: bool): seq<Byte> {
    [32] + g.name + (if g.value.Some? then [61, 34] + EscapeAll(g.value.value, true, canonical) + [34] else [])
  }

  function AllText(given: seq<Given>, canonical: bool): seq<Byte> {
    if given == [] then [] else GivenText(given[0], canonical) + AllText(given[1..], canonical)
  }

  lemma {:induction false} AllTextAppend(a: seq<Given>, b: seq<Given>, canonical: bool)
    ensures AllText(a + b, canonical) == AllText(a, canonical) + AllText(b, canonical)
  {
    if a == [] {
      assert a + b == b && [] + AllText(b, canonical) == AllText(b, canonical);
    } else {
      AllTextAppend(a[1..], b, canonical);
      FirstAndRest(a, b);
      Regroup(GivenText(a[0], canonical), AllText(a[1..], canonical), AllText(b, canonical));
    }
  }

  lemma ByteScanned(b: Byte, x: seq<Byte>, entities: Entities)
    requires NameByte(b) || b == 32 || b == 61 || b == 47
    ensures Scan([b] + x, false, entities) == Scanned(b, x, false)
  {
    assert ([b] + x)[1..] == x;
  }

  /** The name at the start of an input */
  function WordIn(w: seq<Byte>, stops: seq<int>, entities: Entities): Word {
    WordOf(Scan(w, false, entities), stops, entities)
  }

  lemma WordStep(b: Byte, x: seq<Byte>, stops: seq<int>, entities: Entities)
    requires NameByte(b) && b !in stops
    ensures
      var w := WordIn(x, stops, entities);
      WordIn([b] + x, stops, entities) == Word([b] + w.chars, w.at)
  {
    ByteScanned(b, x, entities);
  }

  lemma NoWord(x: seq<Byte>, stops: seq<int>, entities: Entities)
    requires EndsWord(Scan(x, false, entities).c, stops)
    ensures WordIn([] + x, stops, entities) == Word([], Scan(x, false, entities))
  {
    assert [] + x == x;
  }

  /** A name is read up to what ends it. */
  lemma {:induction false} WordRead(name: seq<Byte>, x: seq<Byte>, stops: seq<int>, entities: Entities)
    requires forall i :: 0 <= i < |name| ==> NameByte(name[i]) && name[i] !in stops
    requires EndsWord(Scan(x, false, entities).c, stops)
    ensures WordIn(name + x, stops, entities) == Word(name, Scan(x, false, entities))
  {
    if name == [] {
      NoWord(x, stops, entities);
    } else {
      WordRead(name[1..], x, stops, entities);
      Regroup([name[0]], name[1..], x);
      assert [name[0]] + name[1..] == name;
      WordStep(name[0], name[1..] + x, stops, entities);
    }
  }

  /** Where a name ends, in a tag that has been written */
  predicate Ends(c: int) {
    c == 32 || c == 47 || c == GT
  }

  /** Every byte up to 32 is a blank between the words of a tag. */
  lemma BlankSkipped(b: Byte, x: seq<Byte>, entities: Entities)
    requires b <= 32
    ensures NonBlank(Scan([b] + x, false, entities), entities) == NonBlank(Scan(x, false, entities), entities)
  {
    assert ([b] + x)[1..] == x;
  }

  lemma QuoteScanned(x: seq<Byte>, entities: Entities)
    ensures Scan([34] + x, false, entities) == Scanned(QT, x, false)
  {
    assert ([34] + x)[1..] == x;
  }

  lemma ValueStep(s: Scanned, name: seq<Byte>, at: Scanned, q: Scanned, v: Read, entities: Entities)
    requires s.c > 32 && s.c != 47 && WordOf(s, [61, 47], entities) == Word(name, at) && name != [] && at.c == 61
    requires Follow(at, entities) == q && q.c == QT && !q.cdata && ValueTo(q.rest, QT, entities) == Some(v) && v.stop == QT
    ensures AttributesOf(s, entities) ==
            More(Given(name, Some(v.s)), AttributesOf(NonBlank(Scan(v.rest, false, entities), entities), entities))
  {
    ValueShrinks(q.rest, q.c, entities);
  }

  lemma FlagStep(s: Scanned, name: seq<Byte>, at: Scanned, entities: Entities)
    requires s.c > 32 && s.c != 47 && WordOf(s, [61, 47], entities) == Word(name, at) && name != []
    requires NonBlank(at, entities).c != 61
    ensures AttributesOf(s, entities) == More(Given(name, None), AttributesOf(NonBlank(at, entities), entities))
  {
  }

  /** The blank before an attribute, and the start of its name */
  lemma BlankRead(name: seq<Byte>, x: seq<Byte>, entities: Entities)
    requires NameBytes(name)
    ensures Scan([32] + (name + x), false, entities) == Scanned(32, name + x, false)
    ensures
      var s := Scan(name + x, false, entities);
      s.c > 32 && s.c != 47 && NonBlank(Scan([32] + (name + x), false, entities), entities) == s
  {
    ByteScanned(32, name + x, entities);
    NameScanned(name, x, entities);
  }

  lemma EqualsRead(x: seq<Byte>, entities: Entities)
    ensures
      var s := Scan([61] + ([34] + x), false, entities);
      s.c == 61 && Follow(s, entities) == Scanned(QT, x, false)
  {
    ByteScanned(61, [34] + x, entities);
    QuoteScanned(x, entities);
  }

  /** One attribute with a value is read, and then the others. */
  lemma ValueRead(g: Given, canonical: bool, x: seq<Byte>, entities: Entities)
    requires Writable(g) && g.value.Some?
    ensures
      Tail(GivenText(g, canonical) + x, entities) == More(g, Tail(x, entities))
  {
    var quoted := EscapeAll(g.value.value, true, canonical) + ([34] + x);
    var y := [61] + ([34] + quoted);
    assert GivenText(g, canonical) + x == [32] + (g.name + y);
    BlankRead(g.name, y, entities);
    EqualsRead(quoted, entities);
    WordRead(g.name, y, [61, 47], entities);
    QuotedReadBack(g.value.value, canonical, x, entities);
    ValueStep(Scan(g.name + y, false, entities), g.name, Scan(y, false, entities), Scanned(QT, quoted, false),
              Read(g.value.value, QT, x), entities);
  }

  lemma NameScanned(name: seq<Byte>, x: seq<Byte>, entities: Entities)
    requires NameBytes(name)
    ensures
      var s := Scan(name + x, false, entities);
      s.c == name[0] > 32 && s.c != 47 && s.c != 61 && NonBlank(s, entities) == s
  {
    assert name + x == [name[0]] + (name[1..] + x);
    ByteScanned(name[0], name[1..] + x, entities);
  }

  /** One attribute without a value is read, and then the others. */
  lemma FlagRead(g: Given, canonical: bool, x: seq<Byte>, entities: Entities)
    requires Writable(g) && g.value.None? && Ends(Scan(x, false, entities).c)
    requires NonBlank(Scan(x, false, entities), entities).c != 61
    ensures
      Tail(GivenText(g, canonical) + x, entities) == More(g, Tail(x, entities))
  {
    assert GivenText(g, canonical) + x == [32] + (g.name + x);
    BlankRead(g.name, x, entities);
    WordRead(g.name, x, [61, 47], entities);
    FlagStep(Scan(g.name + x, false, entities), g.name, Scan(x, false, entities), entities);
  }

  lemma GivenStarts(g: Given, canonical: bool, x: seq<Byte>, entities: Entities)
    requires NameBytes(g.name)
    ensures
      var s := Scan(GivenText(g, canonical) + x, false, entities);
      s.c == 32 && NonBlank(s, entities).c != 61
  {
    var more := GivenText(g, canonical)[1 + |g.name|..] + x;
    assert GivenText(g, canonical) + x == [32] + (g.name + more);
    BlankRead(g.name, more, entities);
    NameScanned(g.name, more, entities);
  }

  /** What comes next in a tag that has been written: another attribute, or the end */
  lemma TextStarts(given: seq<Given>, canonical: bool, end: seq<Byte>, entities: Entities)
    requires AllWritable(given) && (Scan(end, false, entities).c == 47 || Scan(end, false, entities).c == GT)
    ensures Ends(Scan(AllText(given, canonical) + end, false, entities).c)
    ensures NonBlank(Scan(AllText(given, canonical) + end, false, entities), entities).c != 61
  {
    if given == [] {
      assert AllText(given, canonical) + end == end;
    } else {
      Regroup(GivenText(given[0], canonical), AllText(given[1..], canonical), end);
      GivenStarts(given[0], canonical, AllText(given[1..], canonical) + end, entities);
    }
  }

  lemma FirstRead(given: seq<Given>, canonical: bool, end: seq<Byte>, entities: Entities)
    requires given != [] && AllWritable(given) && (Scan(end, false, entities).c == 47 || Scan(end, false, entities).c == GT)
    ensures Tail(AllText(given, canonical) + end, entities) == More(given[0], Tail(AllText(given[1..], canonical) + end, entities))
  {
    var x := AllText(given[1..], canonical) + end;
    Regroup(GivenText(given[0], canonical), AllText(given[1..], canonical), end);
    if given[0].value.Some? {
      ValueRead(given[0], canonical, x, entities);
    } else {
      TextStarts(given[1..], canonical, end, entities);
      FlagRead(given[0], canonical, x, entities);
    }
  }

  lemma NoneRead(end: seq<Byte>, entities: Entities)
    requires Scan(end, false, entities).c == 47 || Scan(end, false, entities).c == GT
    ensures Tail([] + end, entities) == Some(Attributes([], Scan(end, false, entities)))
  {
    assert [] + end == end;
  }

  /** The attributes that have been written are read, each with its value. */
  lemma {:induction false} AttributesRead(given: seq<Given>, canonical: bool, end: seq<Byte>, entities: Entities)
    requires AllWritable(given) && (Scan(end, false, entities).c == 47 || Scan(end, false, entities).c == GT)
    ensures Tail(AllText(given, canonical) + end, entities) == Some(Attributes(given, Scan(end, false, entities)))
  {
    if given == [] {
      NoneRead(end, entities);
    } else {
      AttributesRead(given[1..], canonical, end, entities);
      FirstRead(given, canonical, end, entities);
      assert [given[0]] + given[1..] == given;
    }
  }

  /** The end of a tag */
  function TagEnd(empty: bool): seq<Byte> {
    if empty then [47, 62] else [62]
  }

  lemma EndRead(empty: bool, rest: seq<Byte>, entities: Entities)
    ensures
      var s := Scan(TagEnd(empty) + rest, false, entities);
      if empty then s.c == 47 && NonBlank(Follow(s, entities), entities).rest == rest else s == Scanned(GT, rest, false)
  {
    if empty {
      assert [47, 62] + rest == [47] + ([62] + rest);
      ByteScanned(47, [62] + rest, entities);
    }
    assert ([62] + rest)[1..] == rest;
  }

  lemma TagOpens(tag: seq<Byte>, x: seq<Byte>, entities: Entities)
    requires TagBytes(tag)
    ensures Scan([60] + (tag + x), false, entities) == Scanned(LT, tag + x, false)
  {
    var r := tag + x;
    assert ([60] + r)[1..] == r && r[0] == tag[0];
  }

  /** A start tag is read as it was written. */
  lemma StartRead(tag: seq<Byte>, given: seq<Given>, canonical: bool, empty: bool, rest: seq<Byte>, entities: Entities)
    requires TagBytes(tag) && AllWritable(given)
    ensures StartOf([60] + (tag + (AllText(given, canonical) + (TagEnd(empty) + rest))), entities) ==
            Some(Start(tag, given, empty, rest))
  {
    var end := TagEnd(empty) + rest;
    var x := AllText(given, canonical) + end;
    EndRead(empty, rest, entities);
    TextStarts(given, canonical, end, entities);
    AttributesRead(given, canonical, end, entities);
    TagOpens(tag, x, entities);
    NameScanned(tag, x, entities);
    WordRead(tag, x, [47], entities);
  }

  /** The declaration of XML, or another instruction before the tag, makes no difference. */
  lemma PrologSkipped(s: seq<Byte>, w: seq<Byte>, entities: Entities)
    requires 60 !in s && 62 !in s
    ensures StartOf([60, 63] + s + [63, 62] + w, entities) == StartOf(w, entities)
  {
    InstructionIsSkipped(63, s, w, entities);
  }

  datatype End = End(tag: seq<Byte>, rest: seq<Byte>)

  /** soap_element_end_in, when the end tag comes next */
  function EndOf(w: seq<Byte>, entities: Entities): Option<End> {
    var s := Scan(w, false, entities);
    if s.c != TT then None
    else
      var tag := WordOf(NonBlank(Follow(s, entities), entities), [], entities);
      var gt := NonBlank(tag.at, entities);
      if gt.c == GT then Some(End(tag.chars, gt.rest)) else None
  }

  /** An end tag is read as it was written. */
  lemma EndTagIsRead(tag: seq<Byte>, rest: seq<Byte>, entities: Entities)
    requires NameBytes(tag)
    ensures EndOf([60, 47] + (tag + ([62] + rest)), entities) == Some(End(tag, rest))
  {
    EndTagRead(tag + ([62] + rest), entities);
    TokenScanned([60, 47] + (tag + ([62] + rest)), entities);
    assert ([62] + rest)[1..] == rest;
    NameScanned(tag, [62] + rest, entities);
    WordRead(tag, [62] + rest, [], entities);
  }

  /** A start tag is no end tag, and the other way round. */
  lemma NotBoth(w: seq<Byte>, entities: Entities)
    ensures StartOf(w, entities).None? || EndOf(w, entities).None?
  {
  }
}

/** soap_peek_element */
module StartReading {
  import opened Bytes
  import opened XmlTokens
  import opened XmlReading
  import opened StartTags

  /** The reader is behind the token s, with nothing put back. */
  ghost predicate Behind(reader: XmlReader, s: Scanned)
    reads reader
  {
    reader.ahead == 0 && reader.input == s.rest && reader.cdata == s.cdata
  }

  /** The next token */
  method Token(reader: XmlReader, ghost s: Scanned) returns (c: int, ghost t: Scanned)
    requires Behind(reader, s)
    modifies reader
    ensures t == Follow(s, reader.entities) && c == t.c && Behind(reader, t)
  {
    c := reader.Get();
    t := Scanned(c, reader.input, reader.cdata);
  }

  method SkipBlank(reader: XmlReader, c0: int, ghost s: Scanned) returns (c: int, ghost t: Scanned)
    requires Behind(reader, s) && c0 == s.c
    modifies reader
    ensures t == NonBlank(s, reader.entities) && c == t.c && Behind(reader, t)
  {
    c, t := c0, s;
    while IsBlank(c)
      invariant Behind(reader, t) && c == t.c && NonBlank(s, reader.entities) == NonBlank(t, reader.entities)
      decreases StartTags.Left(t)
    {
      c, t := Token(reader, t);
    }
  }

  /** The loop that collects a name */
  method ReadWord(reader: XmlReader, c0: int, stops: seq<int>, ghost s: Scanned)
    returns (word: seq<Byte>, c: int, ghost t: Scanned)
    requires Behind(reader, s) && c0 == s.c
    modifies reader
    ensures WordOf(s, stops, reader.entities) == Word(word, t) && c == t.c && Behind(reader, t)
  {
    word, c, t := [], c0, s;
    while c > 32 && c !in stops
      invariant Behind(reader, t) && c == t.c
      invariant
        var r := WordOf(t, stops, reader.entities);
        WordOf(s, stops, reader.entities) == Word(word + r.chars, r.at)
      decreases StartTags.Left(t)
    {
      ghost var rest := WordOf(Follow(t, reader.entities), stops, reader.entities).chars;
      Regroup(word, [c % 256], rest);
      word := word + [c % 256];
      c, t := Token(reader, t);
    }
    assert word + [] == word;
  }

  /** A value in quotes, which the buffer is made large enough for, and the token behind it */
  method ReadValue(reader: XmlReader, d: int, ghost q: Scanned) returns (v: Option<seq<Byte>>, c: int, ghost t: Scanned)
    requires Behind(reader, q) && !q.cdata && (d == QT || d == AP)
    modifies reader
    ensures Behind(reader, t) && c == t.c && StartTags.Left(t) <= |q.rest| + 1
    ensures
      var r := ValueTo(q.rest, d, reader.entities);
      r.Some? && r.value.stop != EOF ==>
        v == Some(r.value.s) && t == NonBlank(Scan(r.value.rest, false, reader.entities), reader.entities)
  {
    ValueShrinks(q.rest, d, reader.entities);
    var value := reader.GetAttrVal(2 * |reader.input| + 1, d);
    c := reader.Get();
    t := Scanned(c, reader.input, reader.cdata);
    v := if value.Ok? then Some(value.s) else None;
    c, t := SkipBlank(reader, c, t);
  }

  /** A token of markup is not in a CDATA section. */
  lemma {:induction false} MarkupOutside(w: seq<Byte>, cdata: bool, entities: Entities)
    ensures Scan(w, cdata, entities).c == QT || Scan(w, cdata, entities).c == AP ==> !Scan(w, cdata, entities).cdata
    decreases |w|
  {
    if w != [] {
      if cdata {
        if w[0] == 93 && |w| > 1 && w[1] == 93 {
          MarkupOutside(From(w, 3), false, entities);
        }
      } else if w[0] == 60 {
        var o := Opens(w[1..]);
        if o.Skipped? {
          MarkupOutside(o.rest, o.cdata, entities);
        }
      }
    }
  }

  /** After the equals sign of an attribute */
  method ReadQuoted(reader: XmlReader, ghost e: Scanned) returns (v: Option<seq<Byte>>, c: int, ghost t: Scanned)
    requires Behind(reader, e) && e.c == 61
    modifies reader
    ensures Behind(reader, t) && c == t.c && StartTags.Left(t) <= StartTags.Left(e)
    ensures
      var q := NonBlank(Follow(e, reader.entities), reader.entities);
      var r := ValueTo(q.rest, q.c, reader.entities);
      (q.c == QT || q.c == AP) && !q.cdata && r.Some? && r.value.stop != EOF ==>
        v == Some(r.value.s) && t == NonBlank(Scan(r.value.rest, false, reader.entities), reader.entities)
  {
    c, t := Token(reader, e);
    c, t := SkipBlank(reader, c, t);
    if (c != QT && c != AP) || reader.cdata {
      return None, c, t;
    }
    v, c, t := ReadValue(reader, c, t);
  }

  /** What is left of the attributes, when the ones before s are known */
  ghost predicate OnTheWay(all: Option<Attributes>, given: seq<Given>, s: Scanned, entities: Entities) {
    var r := AttributesOf(s, entities);
    all.Some? ==> r.Some? && all.value == Attributes(given + r.value.given, r.value.at)
  }

  lemma OneMore(all: Option<Attributes>, given: seq<Given>, g: Given, s: Scanned, t: Scanned, entities: Entities)
    requires OnTheWay(all, given, s, entities) && AttributesOf(s, entities) == More(g, AttributesOf(t, entities))
    ensures OnTheWay(all, given + [g], t, entities)
  {
    var r := AttributesOf(t, entities);
    if all.Some? {
      Regroup(given, [g], r.value.given);
    }
  }

  /** The loop over the attributes of a tag */
  method ReadAttributes(reader: XmlReader, c0: int, ghost s: Scanned)
    returns (ok: bool, given: seq<Given>, c: int, ghost t: Scanned)
    requires Behind(reader, s) && c0 == s.c
    modifies reader
    ensures Behind(reader, t) && c == t.c
    ensures
      var r := AttributesOf(s, reader.entities);
      r.Some? ==> ok && r.value == Attributes(given, t)
  {
    ok, given, c, t := true, [], c0, s;
    ghost var all := AttributesOf(s, reader.entities);
    assert all.Some? ==> [] + all.value.given == all.value.given;
    while ok && c != EOF && c != GT && c != 47
      invariant Behind(reader, t) && c == t.c
      invariant all.Some? ==> ok
      invariant ok ==> OnTheWay(all, given, t, reader.entities)
      decreases ok, StartTags.Left(t)
    {
      ok, given, c, t := ReadOne(reader, c, all, given, t);
    }
    assert given + [] == given;
  }

  /** One turn of it */
  method ReadOne(reader: XmlReader, c0: int, ghost all: Option<Attributes>, given0: seq<Given>, ghost s: Scanned)
    returns (ok: bool, given: seq<Given>, c: int, ghost t: Scanned)
    requires Behind(reader, s) && c0 == s.c && c0 != EOF && c0 != GT && c0 != 47 && OnTheWay(all, given0, s, reader.entities)
    modifies reader
    ensures Behind(reader, t) && c == t.c && (ok ==> StartTags.Left(t) < StartTags.Left(s))
    ensures all.Some? ==> ok
    ensures ok ==> OnTheWay(all, given, t, reader.entities)
  {
    var name;
    name, c, t := ReadWord(reader, c0, [61, 47], s);
    ghost var w := Word(name, t);
    c, t := SkipBlank(reader, c, t);
    if name == [] {
      return false, given0, c, t;
    }
    var v := None;
    if c == 61 {
      v, c, t := ReadQuoted(reader, t);
      if v.None? {
        return false, given0, c, t;
      }
    }
    ok, given := true, given0 + [Given(name, v)];
    if all.Some? {
      OneMore(all, given0, Given(name, v), s, t, reader.entities);
    }
  }

  /** soap_peek_element: the tag, the attributes, and the fields id and href */
  method PeekElement(reader: XmlReader, refs: bool) returns (r: Option<Start>, id: Option<seq<Byte>>, href: Option<seq<Byte>>)
    requires reader.Fresh()
    modifies reader
    ensures
      var start := StartOf(old(reader.input), reader.entities);
      start.Some? ==> r == start && reader.input == start.value.rest
    ensures r.Some? ==> id == IdOf(r.value.given) && href == HrefOf(r.value.given, refs)
  {
    r, id, href := None, None, None;
    ghost var s: Scanned;
    var c := reader.Get();
    s := Scanned(c, reader.input, reader.cdata);
    c, s := SkipBlank(reader, c, s);
    if c != LT {
      return;
    }
    c, s := Token(reader, s);
    c, s := SkipBlank(reader, c, s);
    var tag, ok, given;
    tag, c, s := ReadWord(reader, c, [47], s);
    c, s := SkipBlank(reader, c, s);
    ok, given, c, s := ReadAttributes(reader, c, s);
    if !ok || c == EOF {
      return;
    }
    id, href := Fields(given, refs);
    var empty := c == 47;
    if empty {
      c, s := Token(reader, s);
      c, s := SkipBlank(reader, c, s);
    }
    r := Some(Start(tag, given, empty, reader.input));
  }

  /** The loop over the attributes that sets the fields */
  method Fields(given: seq<Given>, refs: bool) returns (id: Option<seq<Byte>>, href: Option<seq<Byte>>)
    ensures id == IdOf(given) && href == HrefOf(given, refs)
  {
    id, href := None, None;
    var tp := 0;
    while tp < |given|
      invariant 0 <= tp <= |given| && id == IdOf(given[..tp]) && href == HrefOf(given[..tp], refs)
    {
      var name, value := given[tp].name, given[tp].value;
      assert given[..tp + 1][..tp] == given[..tp];
      if value.Some? {
        if name == [105, 100] {
          id := Some([35] + value.value);
        } else if name == [104, 114, 101, 102] {
          href := value;
        } else if refs && name == [114, 101, 102] {
          href := Some([35] + value.value);
        }
      }
      tp := tp + 1;
    }
    assert given[..|given|] == given;
  }
}
