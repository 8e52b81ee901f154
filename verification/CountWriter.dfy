/** The methods that make the calls of TwoPasses, and a message written twice. */
module Serializing {
  import opened Bytes
  import opened Chains
  import opened Graphs
  import opened Attributes
  import opened Outputs
  import opened Escapes
  import opened CallRuns
  import opened TwoPasses

  /** Whether pieces have been written, from one text and list of attributes to another. */
  datatype Writing = Writing(t0: seq<Byte>, l0: seq<Attr>, t: seq<Byte>, l: seq<Attr>, ps: Pieces)

  type Writes = iset<Writing>

  ghost predicate Wrote(w: Writes, t0: seq<Byte>, l0: seq<Attr>, t: seq<Byte>, l: seq<Attr>, ps: Pieces) {
    Writing(t0, l0, t, l, ps) in w
  }

  ghost predicate SkipRule(w: Writes, t: seq<Byte>, l: seq<Attr>) {
    Wrote(w, t, l, t, l, Skip)
  }

  ghost predicate OneRule(w: Writes, canonical: bool, t: seq<Byte>, l: seq<Attr>, p: Piece) {
    Wrote(w, t, l, t + PieceText(canonical, l, p), PieceList(canonical, l, p), Just(p))
  }

  ghost predicate BothRule(
      w: Writes, t0: seq<Byte>, l0: seq<Attr>, t1: seq<Byte>, l1: seq<Attr>, t2: seq<Byte>, l2: seq<Attr>,
      ps: Pieces, qs: Pieces) {
    Wrote(w, t0, l0, t1, l1, ps) && Wrote(w, t1, l1, t2, l2, qs) ==> Wrote(w, t0, l0, t2, l2, Then(ps, qs))
  }

  ghost predicate AllRule(
      w: Writes, canonical: bool, t0: seq<Byte>, l0: seq<Attr>, t: seq<Byte>, l: seq<Attr>, ps: Pieces) {
    Wrote(w, t0, l0, t, l, ps) ==> t == t0 + TextOf(canonical, l0, ps) && l == ListAfter(canonical, l0, ps)
  }

  /** w is the relation of TextOf and ListAfter. */
  ghost predicate Rules(w: Writes, canonical: bool) {
    && (forall t, l {:trigger SkipRule(w, t, l)} :: SkipRule(w, t, l))
    && (forall t, l, p {:trigger OneRule(w, canonical, t, l, p)} :: OneRule(w, canonical, t, l, p))
    && (forall t0, l0, t1, l1, t2, l2, ps, qs {:trigger BothRule(w, t0, l0, t1, l1, t2, l2, ps, qs)} ::
          BothRule(w, t0, l0, t1, l1, t2, l2, ps, qs))
    && (forall t0, l0, t, l, ps {:trigger AllRule(w, canonical, t0, l0, t, l, ps)} ::
          AllRule(w, canonical, t0, l0, t, l, ps))
  }

  lemma WroteBoth(
      w: Writes, canonical: bool, t0: seq<Byte>, l0: seq<Attr>, t1: seq<Byte>, l1: seq<Attr>, t2: seq<Byte>, l2: seq<Attr>,
      ps: Pieces, qs: Pieces)
    requires Rules(w, canonical) && Wrote(w, t0, l0, t1, l1, ps) && Wrote(w, t1, l1, t2, l2, qs)
    ensures Wrote(w, t0, l0, t2, l2, Then(ps, qs))
  {
    assert BothRule(w, t0, l0, t1, l1, t2, l2, ps, qs);
  }

  lemma TextRules(w: Writes, canonical: bool)
    requires forall t0, l0, t, l, ps :: Wrote(w, t0, l0, t, l, ps) <==>
               t == t0 + TextOf(canonical, l0, ps) && l == ListAfter(canonical, l0, ps)
    ensures Rules(w, canonical)
  {
    forall t, l
      ensures SkipRule(w, t, l)
    {
      assert t + [] == t;
    }
    forall t0, l0, t1, l1, t2, l2, ps, qs
      ensures BothRule(w, t0, l0, t1, l1, t2, l2, ps, qs)
    {
      if Wrote(w, t0, l0, t1, l1, ps) && Wrote(w, t1, l1, t2, l2, qs) {
        var a, b := TextOf(canonical, l0, ps), TextOf(canonical, l1, qs);
        assert (t0 + a) + b == t0 + (a + b);
      }
    }
  }

  lemma HeadingWritten(
      w: Writes, env: Env, f: Flags, t0: seq<Byte>, l0: seq<Attr>, t1: seq<Byte>, t: seq<Byte>, l: seq<Attr>, tag: string)
    requires Rules(w, env.canonical) && Wrote(w, t0, l0, t1, l0, Heading(env, f, tag).first)
    requires Wrote(w, t1, l0, t, l, Heading(env, f, tag).second)
    ensures Wrote(w, t0, l0, t, l, Heading(env, f, tag))
  {
    WroteBoth(w, env.canonical, t0, l0, t1, l0, t, l, Heading(env, f, tag).first, Heading(env, f, tag).second);
  }

  lemma UnderstandWritten(
      w: Writes, env: Env, f: Flags, t0: seq<Byte>, l0: seq<Attr>, t1: seq<Byte>, l1: seq<Attr>, t: seq<Byte>, l: seq<Attr>)
    requires Rules(w, env.canonical) && f.mustUnderstand && Wrote(w, t0, l0, t1, l1, Actor(env))
    requires Wrote(w, t1, l1, t, l, Just(Attribute(MUST_UNDERSTAND, Some(if env.version == 2 then TRUE else ONE))))
    ensures Wrote(w, t0, l0, t, l, Understand(env, f))
  {
    WroteBoth(w, env.canonical, t0, l0, t1, l1, t, l, Actor(env), Understand(env, f).second);
  }

  /** The first half of Element. */
  function ElementStart(env: Env, f: Flags, tag: string, id: int, typ: Option<string>): Pieces {
    Then(Then(Heading(env, f, tag), IdAndType(id, typ)), Position(f))
  }

  lemma StartWritten(
      w: Writes, env: Env, f: Flags, f1: Flags, t0: seq<Byte>, l0: seq<Attr>, t1: seq<Byte>, l1: seq<Attr>,
      t2: seq<Byte>, l2: seq<Attr>, t: seq<Byte>, l: seq<Attr>, tag: string, id: int, typ: Option<string>)
    requires Rules(w, env.canonical) && f1 == Named(f)
    requires Wrote(w, t0, l0, t1, l1, Heading(env, f, tag)) && Wrote(w, t1, l1, t2, l2, IdAndType(id, typ)) && Wrote(w, t2, l2, t, l, Position(f1))
    ensures Wrote(w, t0, l0, t, l, ElementStart(env, f, tag, id, typ))
  {
    WroteBoth(w, env.canonical, t0, l0, t1, l1, t2, l2, Heading(env, f, tag), IdAndType(id, typ));
    WroteBoth(w, env.canonical, t0, l0, t2, l2, t, l, Then(Heading(env, f, tag), IdAndType(id, typ)), Position(f));
  }

  lemma ElementWritten(
      w: Writes, env: Env, f: Flags, f1: Flags, f2: Flags, t0: seq<Byte>, l0: seq<Attr>, t1: seq<Byte>, l1: seq<Attr>,
      t2: seq<Byte>, l2: seq<Attr>, t: seq<Byte>, l: seq<Attr>, tag: string, id: int, typ: Option<string>)
    requires EnvOk(env) && Rules(w, env.canonical) && f1 == Named(f) && f2 == Understood(f1)
    requires Wrote(w, t0, l0, t1, l1, ElementStart(env, f, tag, id, typ))
    requires Wrote(w, t1, l1, t2, l2, Understand(env, f1)) && Wrote(w, t2, l2, t, l, Encoding(env, f2))
    ensures Wrote(w, t0, l0, t, l, Element(env, f, tag, id, typ))
  {
    assert Understand(env, f1) == Understand(env, f) && Encoding(env, f2) == Encoding(env, f);
    WroteBoth(w, env.canonical, t1, l1, t2, l2, t, l, Understand(env, f), Encoding(env, f));
    WroteBoth(w, env.canonical, t0, l0, t1, l1, t, l, ElementStart(env, f, tag, id, typ),
              Then(Understand(env, f), Encoding(env, f)));
  }

  lemma HrefWritten(
      w: Writes, env: Env, f: Flags, t0: seq<Byte>, l0: seq<Attr>, t1: seq<Byte>, l1: seq<Attr>,
      t2: seq<Byte>, l2: seq<Attr>, t: seq<Byte>, l: seq<Attr>, tag: string, id: int, ref: string, val: string)
    requires EnvOk(env) && Rules(w, env.canonical) && Wrote(w, t0, l0, t1, l1, Element(env, f, tag, id, None))
    requires Wrote(w, t1, l1, t2, l2, Just(Attribute(ref, Some(val)))) && Wrote(w, t2, l2, t, l, StartEnd(env, Some(tag)))
    ensures Wrote(w, t0, l0, t, l, Href(env, f, tag, id, ref, val))
  {
    WroteBoth(w, env.canonical, t1, l1, t2, l2, t, l, Just(Attribute(ref, Some(val))), StartEnd(env, Some(tag)));
    WroteBoth(w, env.canonical, t0, l0, t1, l1, t, l, Element(env, f, tag, id, None), Href(env, f, tag, id, ref, val).second);
  }

  /** What soap_element_null adds to the start of an element. */
  function NilPieces(env: Env, inHeader: bool, encoded: bool, tag: string): Pieces {
    Then(if !inHeader && encoded then Just(Attribute(XSI_NIL, Some(TRUE))) else Skip, StartEnd(env, Some(tag)))
  }

  lemma NullWritten(
      w: Writes, env: Env, f: Flags, t0: seq<Byte>, l0: seq<Attr>, t1: seq<Byte>, l1: seq<Attr>, t: seq<Byte>, l: seq<Attr>,
      tag: string, id: int, typ: Option<string>)
    requires EnvOk(env) && Rules(w, env.canonical) && WritesNull(env, f, AnyVisible(l0), id)
    requires Wrote(w, t0, l0, t1, l1, Element(env, f, tag, id, typ))
    requires Wrote(w, t1, l1, t, l, NilPieces(env, f.inHeader, f.encodingStyle.Some?, tag))
    ensures Wrote(w, t0, l0, t, l, NullElement(env, f, AnyVisible(l0), tag, id, typ))
  {
    WroteBoth(w, env.canonical, t0, l0, t1, l1, t, l, Element(env, f, tag, id, typ),
              NilPieces(env, f.inHeader, f.encodingStyle.Some?, tag));
  }

  function Named(f: Flags): Flags {
    f.(ns := true)
  }

  function Understood(f: Flags): Flags {
    f.(mustUnderstand := false)
  }

  function Encoded(env: Env, f: Flags): Flags
    requires EnvOk(env)
  {
    f.(encoding := false, encodingStyle := if f.encoding && f.encodingStyle.Some? then Style(env, f.encodingStyle) else f.encodingStyle)
  }

  function Settled(f: Flags): Flags {
    f.(isNull := false, position := [])
  }

  lemma FlagsSettled(env: Env, f: Flags)
    requires EnvOk(env)
    ensures Settled(Encoded(env, Understood(Named(f)))) == AfterElement(env, f)
    ensures f.ns ==> Named(f) == f
    ensures !f.mustUnderstand ==> Understood(f) == f
    ensures !f.encoding ==> Encoded(env, f) == f
    ensures f.encoding && (f.encodingStyle.None? || env.namespaces.None?) ==> Encoded(env, f) == f.(encoding := false)
    ensures f.encoding && f.encodingStyle.Some? ==>
              Encoded(env, f) == f.(encodingStyle := Style(env, f.encodingStyle)).(encoding := false)
  {
  }

  predicate SetsOnly(op: Op) {
    op.OpSetAttr? || op.OpPosition? || op.OpMustUnderstand? || op.OpEncoding? || op.OpHeader?
  }

  class Serializer {
    const env: Env
    const out: Output
    /** What the methods below say about the pieces they write */
    ghost const wrote: Writes
    var flags: Flags
    var attributes: seq<Attr>
    var pht: map<Ptr, Plist>

    ghost function Now(): Ctl
      reads this
    {
      Ctl(flags, attributes, pht)
    }

    ghost predicate Valid()
      reads out
    {
      EnvOk(env) && out.Right() && Rules(wrote, env.canonical)
    }

    /** The state at the start of a pass. */
    constructor (env: Env, lengthMode: bool, ghost c: Ctl, style: Option<string>, list: seq<Attr>, marks: map<Ptr, Plist>)
      requires EnvOk(env) && c.flags.encodingStyle == style && c.attributes == list && c.pht == marks
      ensures this.env == env && fresh(out) && Valid() && out.lengthMode == lengthMode && out.text == []
      ensures Now() == PassStart(env, c)
    {
      this.env := env;
      out := new Output(lengthMode);
      flags, pht := Flags(false, false, false, [], false, false, style), marks;
      attributes := if env.canonical then [] else Hidden(list);
      wrote := iset x: Writing |
                 x.t == x.t0 + TextOf(env.canonical, x.l0, x.ps) && x.l == ListAfter(env.canonical, x.l0, x.ps);
      new;
      TextRules(wrote, env.canonical);
    }

    /** soap_send and soap_send_raw */
    method Send(b: seq<Byte>)
      requires Valid()
      modifies out`count, out`sent, out`text
      ensures Valid() && Wrote(wrote, old(out.text), attributes, out.text, attributes, Just(Chars(b)))
    {
      assert OneRule(wrote, env.canonical, out.text, attributes, Chars(b));
      out.SendRaw(b);
    }

    /** soap_attribute */
    method PutAttribute(name: string, value: Option<string>)
      requires Valid()
      modifies this`attributes, out`count, out`sent, out`text
      ensures Valid()
      ensures Wrote(wrote, old(out.text), old(attributes), out.text, attributes, Just(Attribute(name, value)))
    {
      assert OneRule(wrote, env.canonical, out.text, attributes, Attribute(name, value));
      if env.canonical {
        attributes := SetAttr(attributes, true, name, value);
        assert out.text + [] == out.text;
      } else {
        ghost var t := out.text;
        out.SendRaw(SPACE);
        out.SendRaw(Raw(name));
        if value.Some? {
          out.SendRaw(EQUALS);
          StringOut(out, Raw(value.value), true, false);
          out.SendRaw(QUOTE);
          Quoted(t, Raw(name), EscapeAll(Raw(value.value), true, false));
        } else {
          assert SPACE + Raw(name) + [] == SPACE + Raw(name);
          assert t + (SPACE + Raw(name)) == t + SPACE + Raw(name);
        }
      }
    }

    /** The namespace declarations of the first element, from the entry i on */
    method PutDeclarations(table: seq<Ns>)
      requires Valid()
      modifies this`attributes, out`count, out`sent, out`text
      ensures Valid() && Wrote(wrote, old(out.text), old(attributes), out.text, attributes, Declarations(table))
      decreases |table|
    {
      ghost var t0, l0 := out.text, attributes;
      assert SkipRule(wrote, t0, l0);
      if table == [] {
        return;
      }
      if table[0].id != "" && Uri(table[0]).Some? {
        PutAttribute(XMLNS + table[0].id, Uri(table[0]));
      }
      ghost var t1, l1 := out.text, attributes;
      PutDeclarations(table[1..]);
      WroteBoth(wrote, env.canonical, t0, l0, t1, l1, out.text, attributes,
                if table[0].id != "" && Uri(table[0]).Some? then Just(Attribute(XMLNS + table[0].id, Uri(table[0]))) else Skip,
                Declarations(table[1..]));
    }

    /** The start of soap_element: the prolog of the message, and the start of the tag */
    method PutProlog(tag: string)
      requires Valid()
      modifies out`count, out`sent, out`text
      ensures Valid() && Wrote(wrote, old(out.text), attributes, out.text, attributes, Heading(env, flags, tag).first)
    {
      ghost var t0 := out.text;
      assert SkipRule(wrote, t0, attributes);
      if !flags.ns && !env.canonical {
        Send(Raw(env.prolog));
      }
      ghost var t1 := out.text;
      Send(OPEN);
      ghost var t2 := out.text;
      Send(Raw(tag));
      WroteBoth(wrote, env.canonical, t1, attributes, t2, attributes, out.text, attributes, Just(Chars(OPEN)), Just(Chars(Raw(tag))));
      WroteBoth(wrote, env.canonical, t0, attributes, t1, attributes, out.text, attributes,
                if flags.ns || env.canonical then Skip else Just(Chars(Raw(env.prolog))),
                Then(Just(Chars(OPEN)), Just(Chars(Raw(tag)))));
    }

    /** soap_element up to the namespace declarations */
    method PutHeading(tag: string)
      requires Valid()
      modifies this`attributes, this`flags, out`count, out`sent, out`text
      ensures Valid() && Wrote(wrote, old(out.text), old(attributes), out.text, attributes, Heading(env, old(flags), tag))
      ensures flags == Named(old(flags))
    {
      ghost var f, t0, l0 := flags, out.text, attributes;
      PutProlog(tag);
      ghost var t1 := out.text;
      assert SkipRule(wrote, t1, attributes);
      FlagsSettled(env, f);
      if !flags.ns {
        if env.namespaces.Some? {
          PutDeclarations(env.namespaces.value);
        }
        flags := Named(flags);
      }
      HeadingWritten(wrote, env, f, t0, l0, t1, out.text, attributes, tag);
    }

    method PutIdAndType(id: int, typ: Option<string>)
      requires Valid()
      modifies this`attributes, out`count, out`sent, out`text
      ensures Valid() && Wrote(wrote, old(out.text), old(attributes), out.text, attributes, IdAndType(id, typ))
    {
      ghost var t0, l0 := out.text, attributes;
      assert SkipRule(wrote, t0, l0);
      if id > 0 {
        PutAttribute(ID, Some(UNDERSCORE + AsString(Dec(id))));
      }
      ghost var t1, l1 := out.text, attributes;
      assert SkipRule(wrote, t1, l1);
      if typ.Some? && typ.value != "" {
        PutAttribute(XSI_TYPE, typ);
      }
      WroteBoth(wrote, env.canonical, t0, l0, t1, l1, out.text, attributes, IdAndType(id, typ).first, IdAndType(id, typ).second);
    }

    method PutPosition()
      requires Valid()
      modifies this`attributes, out`count, out`sent, out`text
      ensures Valid() && Wrote(wrote, old(out.text), old(attributes), out.text, attributes, Position(flags))
    {
      assert SkipRule(wrote, out.text, attributes);
      if flags.isNull && flags.position != [] {
        PutAttribute(POSITION, Some(AsString(Positions(flags.position)) + BRACKET));
      }
    }

    method PutUnderstand()
      requires Valid()
      modifies this`attributes, this`flags, out`count, out`sent, out`text
      ensures Valid() && Wrote(wrote, old(out.text), old(attributes), out.text, attributes, Understand(env, old(flags)))
      ensures flags == Understood(old(flags))
    {
      FlagsSettled(env, flags);
      if flags.mustUnderstand {
        ghost var t0, l0 := out.text, attributes;
        PutActor();
        ghost var t1, l1 := out.text, attributes;
        PutAttribute(MUST_UNDERSTAND, Some(if env.version == 2 then TRUE else ONE));
        UnderstandWritten(wrote, env, old(flags), t0, l0, t1, l1, out.text, attributes);
        flags := Understood(flags);
      } else {
        assert SkipRule(wrote, out.text, attributes);
      }
    }

    method PutActor()
      requires Valid()
      modifies this`attributes, out`count, out`sent, out`text
      ensures Valid() && Wrote(wrote, old(out.text), old(attributes), out.text, attributes, Actor(env))
    {
      assert SkipRule(wrote, out.text, attributes);
      if env.actor.Some? && env.actor.value != "" {
        PutAttribute(if env.version == 2 then ROLE else ACTOR, env.actor);
      }
    }

    method PutEncoding()
      requires Valid()
      modifies this`attributes, this`flags, out`count, out`sent, out`text
      ensures Valid() && Wrote(wrote, old(out.text), old(attributes), out.text, attributes, Encoding(env, old(flags)))
      ensures flags == Encoded(env, old(flags))
    {
      assert SkipRule(wrote, out.text, attributes);
      FlagsSettled(env, flags);
      if flags.encoding {
        if flags.encodingStyle.Some? && env.namespaces.Some? {
          if flags.encodingStyle.value == "" {
            flags := flags.(encodingStyle := Uri(env.namespaces.value[1]));
          } else {
            assert flags == flags.(encodingStyle := Style(env, flags.encodingStyle));
          }
          PutAttribute(ENCODING_STYLE, flags.encodingStyle);
        }
        flags := flags.(encoding := false);
      }
    }

    /** soap_element */
    method PutElement(tag: string, id: int, typ: Option<string>)
      requires Valid()
      modifies this, out`count, out`sent, out`text
      ensures Valid() && pht == old(pht) && flags == AfterElement(env, old(flags))
      ensures Wrote(wrote, old(out.text), old(attributes), out.text, attributes, Element(env, old(flags), tag, id, typ))
    {
      ghost var f, t0, l0 := flags, out.text, attributes;
      PutStart(tag, id, typ);
      ghost var t1, l1, f1 := out.text, attributes, flags;
      PutUnderstand();
      ghost var t2, l2, f2 := out.text, attributes, flags;
      PutEncoding();
      flags := Settled(flags);
      FlagsSettled(env, f);
      ElementWritten(wrote, env, f, f1, f2, t0, l0, t1, l1, t2, l2, out.text, attributes, tag, id, typ);
    }

    /** soap_element up to the position */
    method PutStart(tag: string, id: int, typ: Option<string>)
      requires Valid()
      modifies this`attributes, this`flags, out`count, out`sent, out`text
      ensures Valid() && flags == Named(old(flags))
      ensures Wrote(wrote, old(out.text), old(attributes), out.text, attributes, ElementStart(env, old(flags), tag, id, typ))
    {
      ghost var f, t0, l0 := flags, out.text, attributes;
      PutHeading(tag);
      ghost var t1, l1 := out.text, attributes;
      PutIdAndType(id, typ);
      ghost var t2, l2, f1 := out.text, attributes, flags;
      PutPosition();
      StartWritten(wrote, env, f, f1, t0, l0, t1, l1, t2, l2, out.text, attributes, tag, id, typ);
    }

    /** soap_element_end_out */
    method PutEnd(tag: string)
      requires Valid()
      modifies out`count, out`sent, out`text
      ensures Valid() && Wrote(wrote, old(out.text), attributes, out.text, attributes, EndTag(tag))
    {
      ghost var t0 := out.text;
      assert SkipRule(wrote, t0, attributes);
      if tag != "" && tag[0] == '-' {
        return;
      }
      Send(OPEN_END);
      ghost var t1 := out.text;
      Send(Raw(tag));
      ghost var t2 := out.text;
      Send(CLOSE);
      WroteBoth(wrote, env.canonical, t1, attributes, t2, attributes, out.text, attributes, Just(Chars(Raw(tag))), Just(Chars(CLOSE)));
      WroteBoth(wrote, env.canonical, t0, attributes, t1, attributes, out.text, attributes, Just(Chars(OPEN_END)), EndTag(tag).second);
    }

    /** The loop of soap_element_start_end_out over the attributes that have been set */
    method PutSetAttributes()
      requires Valid()
      modifies this`attributes, out`count, out`sent, out`text
      ensures Valid() && Wrote(wrote, old(out.text), old(attributes), out.text, attributes, Just(SetAttributes))
    {
      ghost var t0, l0 := out.text, attributes;
      assert OneRule(wrote, env.canonical, t0, l0, SetAttributes);
      var i := 0;
      assert t0 + [] == t0;
      while i < |attributes|
        invariant Valid() && 0 <= i <= |attributes| == |l0|
        invariant HiddenUpTo(l0, attributes, i) && out.text == t0 + VisibleText(l0[..i], env.canonical)
      {
        PutAndHide(t0, l0, i);
        i := i + 1;
      }
      AllHidden(l0, attributes);
    }

    /** One turn of the loop */
    method PutAndHide(ghost t0: seq<Byte>, ghost l0: seq<Attr>, i: nat)
      requires Valid() && i < |attributes| == |l0|
      requires HiddenUpTo(l0, attributes, i) && out.text == t0 + VisibleText(l0[..i], env.canonical)
      modifies this`attributes, out`count, out`sent, out`text
      ensures Valid() && |attributes| == |l0|
      ensures HiddenUpTo(l0, attributes, i + 1) && out.text == t0 + VisibleText(l0[..i + 1], env.canonical)
    {
      OneMoreHidden(l0, attributes, i);
      OneMoreVisible(t0, l0, i, env.canonical);
      if attributes[i].visible != 0 {
        PutOne(attributes[i]);
        attributes := attributes[i := attributes[i].(visible := 0)];
      }
    }

    /** One attribute that has been set */
    method PutOne(tp: Attr)
      requires Valid()
      modifies out`count, out`sent, out`text
      ensures Valid() && out.text == old(out.text) + AttrText(tp, env.canonical)
    {
      ghost var t := out.text;
      out.SendRaw(SPACE);
      out.SendRaw(Raw(tp.name));
      if tp.visible == 2 && tp.value.Some? {
        out.SendRaw(EQUALS);
        StringOut(out, Raw(tp.value.value), true, env.canonical);
        out.SendRaw(QUOTE);
        Quoted(t, Raw(tp.name), EscapeAll(Raw(tp.value.value), true, env.canonical));
      } else {
        assert SPACE + Raw(tp.name) + [] == SPACE + Raw(tp.name);
        assert t + (SPACE + Raw(tp.name)) == t + SPACE + Raw(tp.name);
      }
    }

    /** soap_element_start_end_out */
    method PutStartEnd(tag: Option<string>)
      requires Valid()
      modifies this`attributes, out`count, out`sent, out`text
      ensures Valid() && Wrote(wrote, old(out.text), old(attributes), out.text, attributes, StartEnd(env, tag))
    {
      ghost var t0, l0 := out.text, attributes;
      PutSetAttributes();
      ghost var t1, l1 := out.text, attributes;
      if tag.None? {
        Send(CLOSE);
      } else if env.canonical {
        Send(CLOSE);
        ghost var t2 := out.text;
        PutEnd(tag.value);
        WroteBoth(wrote, env.canonical, t1, l1, t2, l1, out.text, attributes, Just(Chars(CLOSE)), EndTag(tag.value));
      } else {
        Send(CLOSE_EMPTY);
      }
      WroteBoth(wrote, env.canonical, t0, l0, t1, l1, out.text, attributes, Just(SetAttributes), StartEnd(env, tag).second);
    }

    /** The loop of soap_element_null that looks for an attribute that has been set */
    method FindVisible() returns (found: bool)
      ensures found == AnyVisible(attributes)
    {
      var tp := 0;
      while tp < |attributes| && attributes[tp].visible == 0
        invariant 0 <= tp <= |attributes| && forall i :: 0 <= i < tp ==> attributes[i].visible == 0
      {
        tp := tp + 1;
      }
      found := tp < |attributes|;
    }

    /** What soap_element_null adds to an element that has been started */
    method PutNil(tag: string)
      requires Valid()
      modifies this`attributes, out`count, out`sent, out`text
      ensures Valid()
      ensures Wrote(wrote, old(out.text), old(attributes), out.text, attributes,
                    NilPieces(env, flags.inHeader, flags.encodingStyle.Some?, tag))
    {
      ghost var t0, l0 := out.text, attributes;
      assert SkipRule(wrote, t0, l0);
      if !flags.inHeader && flags.encodingStyle.Some? {
        PutAttribute(XSI_NIL, Some(TRUE));
      }
      ghost var t1, l1 := out.text, attributes;
      PutStartEnd(Some(tag));
      WroteBoth(wrote, env.canonical, t0, l0, t1, l1, out.text, attributes,
                NilPieces(env, flags.inHeader, flags.encodingStyle.Some?, tag).first, StartEnd(env, Some(tag)));
    }

    /** soap_element_null */
    method PutNull(tag: string, id: int, typ: Option<string>)
      requires Valid()
      modifies this, out`count, out`sent, out`text
      ensures Valid() && pht == old(pht) && flags == AfterNull(env, old(flags), AnyVisible(old(attributes)), id)
      ensures Wrote(wrote, old(out.text), old(attributes), out.text, attributes,
                    NullElement(env, old(flags), AnyVisible(old(attributes)), tag, id, typ))
    {
      ghost var f, t0, l0 := flags, out.text, attributes;
      assert SkipRule(wrote, t0, l0);
      var tp := FindVisible();
      if tp || (env.version == 2 && flags.position != []) || id > 0 || env.nil {
        PutElement(tag, id, typ);
        ghost var t1, l1, f1 := out.text, attributes, flags;
        PutNil(tag);
        NullWritten(wrote, env, f, t0, l0, t1, l1, out.text, attributes, tag, id, typ);
      } else {
        flags := AfterNull(env, flags, tp, id);
      }
    }

    /** soap_element_href */
    method PutHref(tag: string, id: int, ref: string, val: string)
      requires Valid()
      modifies this, out`count, out`sent, out`text
      ensures Valid() && pht == old(pht) && flags == AfterElement(env, old(flags))
      ensures Wrote(wrote, old(out.text), old(attributes), out.text, attributes, Href(env, old(flags), tag, id, ref, val))
    {
      ghost var f, t0, l0 := flags, out.text, attributes;
      PutElement(tag, id, None);
      ghost var t1, l1, f1 := out.text, attributes, flags;
      PutAttribute(ref, Some(val));
      assert flags == f1;
      ghost var t2, l2 := out.text, attributes;
      PutStartEnd(Some(tag));
      assert flags == f1;
      HrefWritten(wrote, env, f, t0, l0, t1, l1, t2, l2, out.text, attributes, tag, id, ref, val);
    }

    /** soap_element_ref */
    method PutRef(tag: string, id: int, href: int)
      requires Valid()
      modifies this, out`count, out`sent, out`text
      ensures Valid() && pht == old(pht) && flags == AfterElement(env, old(flags))
      ensures Wrote(wrote, old(out.text), old(attributes), out.text, attributes, ElementRef(env, old(flags), tag, id, href))
    {
      if env.version == 2 {
        PutHref(tag, id, REF, UNDERSCORE + AsString(DecInt(href)));
      } else {
        PutHref(tag, id, HREF, HASH + AsString(DecInt(href)));
      }
    }

    /** soap_element_id */
    method PutElementId(tag: string, id: int, p: Ptr, typ: Option<string>) returns (r: int)
      requires Valid()
      modifies this, out`count, out`sent, out`text
      ensures Valid() && Did(env, wrote, out.lengthMode, old(Now()), old(out.text), Now(), out.text, OpElementId(tag, id, p, typ), r)
    {
      assert SkipRule(wrote, out.text, attributes);
      if p.p == NULL {
        PutNull(tag, id, typ);
        return -1;
      }
      if env.tree {
        return 0;
      }
      if id >= 0 {
        return id;
      }
      if p in pht && pht[p].id != 0 {
        r := PutKnown(tag, id, p, typ);
        return;
      }
      return 0;
    }

    /** soap_element_id for a pointer that has been referenced */
    method PutKnown(tag: string, id: int, p: Ptr, typ: Option<string>) returns (r: int)
      requires Valid() && p.p != NULL && p in pht && pht[p].id != 0 && !env.tree && id < 0
      modifies this, out`count, out`sent, out`text
      ensures Valid() && Did(env, wrote, out.lengthMode, old(Now()), old(out.text), Now(), out.text, OpElementId(tag, id, p, typ), r)
    {
      assert SkipRule(wrote, out.text, attributes);
      var mark := MarkIn(pht[p], out.lengthMode);
      if if env.version == 1 && flags.encodingStyle.Some? && !env.graph && !flags.inHeader then mark != 0 else mark == 1 {
        PutRef(tag, 0, pht[p].id);
        return -1;
      }
      if flags.inHeader || mark == 0 {
        return 0;
      }
      pht := SetMark(pht, out.lengthMode, p, 1);
      return pht[p].id;
    }

    /** soap_embedded_id */
    method PutEmbeddedId(id: int, p: Ptr) returns (r: int)
      requires Valid()
      modifies this`pht
      ensures Valid() && Did(env, wrote, out.lengthMode, old(Now()), out.text, Now(), out.text, OpEmbeddedId(id, p), r)
    {
      assert SkipRule(wrote, out.text, attributes);
      ghost var plan := PlanEmbeddedId(env, flags, Lookup(pht, p), id);
      r := MarkEmbedded(id, p, plan);
    }

    /** What it marks, and the id it returns */
    method MarkEmbedded(id: int, p: Ptr, ghost plan: Plan) returns (r: int)
      requires plan == PlanEmbeddedId(env, flags, Lookup(pht, p), id)
      modifies this`pht
      ensures pht == MarksNext(old(pht), out.lengthMode, p, plan.mark) && r == plan.result
    {
      if env.tree {
        return id;
      }
      var i := if p.p != NULL && p in pht then pht[p].id else 0;
      if env.version == 1 && flags.encodingStyle.Some? && !env.graph && !flags.inHeader {
        if id >= 0 {
          return id;
        }
        if i != 0 {
          pht := SetMark(pht, out.lengthMode, p, 2);
        }
        return -1;
      }
      r := id;
      if id < 0 {
        r := i;
      } else if id != 0 && i == 0 {
        return 0;
      }
      if r != 0 && i != 0 {
        pht := SetMark(pht, out.lengthMode, p, 1);
      }
    }

    /** The calls that only set a field or an attribute */
    method Set(op: Op)
      requires Valid() && SetsOnly(op)
      modifies this
      ensures Valid() && Did(env, wrote, out.lengthMode, old(Now()), out.text, Now(), out.text, op, 0)
    {
      assert SkipRule(wrote, out.text, attributes);
      match op {
        case OpSetAttr(name, value) => attributes := SetAttr(attributes, env.canonical, name, value);
        case OpPosition(ps) => flags := flags.(position := ps);
        case OpMustUnderstand => flags := flags.(mustUnderstand := true);
        case OpEncoding => flags := flags.(encoding := true);
        case OpHeader(h) => flags := flags.(inHeader := h);
      }
    }

    /** The calls that write */
    method Put(op: Op) returns (r: int)
      requires Valid() && !SetsOnly(op)
      modifies this, out`count, out`sent, out`text
      ensures Valid() && Did(env, wrote, out.lengthMode, old(Now()), old(out.text), Now(), out.text, op, r)
    {
      r := 0;
      match op {
        case OpElement(tag, id, typ) => PutElement(tag, id, typ);
        case OpStartEnd(tag) => PutStartEnd(tag);
        case OpEnd(tag) => PutEnd(tag);
        case OpAttribute(name, value) => PutAttribute(name, value);
        case OpString(s, flag) =>
          assert OneRule(wrote, env.canonical, out.text, attributes, Chars(EscapeAll(s, flag, env.canonical)));
          StringOut(out, s, flag, env.canonical);
        case OpNull(tag, id, typ) => PutNull(tag, id, typ);
        case OpHref(tag, id, ref, val) => PutHref(tag, id, ref, val);
        case OpElementRef(tag, id, href) => PutRef(tag, id, href);
        case OpElementId(tag, id, p, typ) => r := PutElementId(tag, id, p, typ);
        case OpEmbeddedId(id, p) => r := PutEmbeddedId(id, p);
      }
    }

    /** Any of the calls */
    method Do(op: Op) returns (r: int)
      requires Valid()
      modifies this, out`count, out`sent, out`text
      ensures Valid() && Did(env, wrote, out.lengthMode, old(Now()), old(out.text), Now(), out.text, op, r)
    {
      if SetsOnly(op) {
        r := 0;
        Set(op);
      } else {
        r := Put(op);
      }
    }

    /** The first n calls of a client */
    method Calls(client: Client<Op>, n: nat) returns (results: seq<int>)
      requires Valid()
      modifies this, out`count, out`sent, out`text
      ensures Valid()
      ensures Run(Call(env, out.lengthMode), client, n, Pass(old(Now()), old(out.text), [])) == Pass(Now(), out.text, results)
    {
      results := [];
      var i := n;
      while i > 0 && client(results).Some?
        invariant Valid() && 0 <= i <= n
        invariant Run(Call(env, out.lengthMode), client, n, Pass(old(Now()), old(out.text), []))
               == Run(Call(env, out.lengthMode), client, i, Pass(Now(), out.text, results))
      {
        ghost var c, t := Now(), out.text;
        var op := client(results).value;
        var r := Do(op);
        DidCall(env, wrote, out.lengthMode, c, t, Now(), out.text, op, r);
        results := results + [r];
        i := i - 1;
      }
    }
  }

  lemma Quoted(t: seq<Byte>, name: seq<Byte>, value: seq<Byte>)
    ensures t + SPACE + name + EQUALS + value + QUOTE == t + (SPACE + name + (EQUALS + value + QUOTE))
  {
  }

  ghost predicate HiddenUpTo(l0: seq<Attr>, l: seq<Attr>, i: nat) {
    |l| == |l0| && forall j :: 0 <= j < |l| ==> l[j] == if j < i then l0[j].(visible := 0) else l0[j]
  }

  lemma OneMoreHidden(l0: seq<Attr>, l: seq<Attr>, i: nat)
    requires HiddenUpTo(l0, l, i) && i < |l|
    ensures l[i] == l0[i] && HiddenUpTo(l0, l[i := l[i].(visible := 0)], i + 1)
    ensures l[i].visible == 0 ==> HiddenUpTo(l0, l, i + 1)
  {
    assert l[i].visible == 0 ==> l[i] == l[i].(visible := 0);
  }

  lemma OneMoreVisible(t0: seq<Byte>, l0: seq<Attr>, i: nat, canonical: bool)
    requires i < |l0|
    ensures t0 + VisibleText(l0[..i + 1], canonical) ==
            (t0 + VisibleText(l0[..i], canonical)) + (if l0[i].visible != 0 then AttrText(l0[i], canonical) else [])
  {
    assert l0[..i + 1][..i] == l0[..i];
    var text, more := VisibleText(l0[..i], canonical), if l0[i].visible != 0 then AttrText(l0[i], canonical) else [];
    assert t0 + (text + more) == (t0 + text) + more;
  }

  lemma AllHidden(l0: seq<Attr>, l: seq<Attr>)
    requires HiddenUpTo(l0, l, |l0|)
    ensures l == Hidden(l0) && l0[..|l0|] == l0
  {
  }

  /** What a call has done is what was planned. */
  ghost predicate Did(
      env: Env, w: Writes, lengthMode: bool, c: Ctl, t0: seq<Byte>, d: Ctl, t: seq<Byte>, op: Op, r: int)
    requires EnvOk(env)
  {
    var plan := PlanIn(env, lengthMode, c, op);
    && d.flags == plan.flags && d.pht == MarksNext(c.pht, lengthMode, PtrOf(op), plan.mark) && r == plan.result
    && (if op.OpSetAttr? then t == t0 && d.attributes == SetAttr(c.attributes, env.canonical, op.name, op.value)
        else Wrote(w, t0, c.attributes, t, d.attributes, plan.pieces))
  }

  lemma DidCall(
      env: Env, w: Writes, lengthMode: bool, c: Ctl, t0: seq<Byte>, d: Ctl, t: seq<Byte>, op: Op, r: int)
    requires EnvOk(env) && Rules(w, env.canonical) && Did(env, w, lengthMode, c, t0, d, t, op, r)
    ensures Move(d, t, r) == Move(Next(env, lengthMode, c, op), t0 + Says(env, lengthMode, c, op), Result(env, lengthMode, c, op))
  {
    assert AllRule(w, env.canonical, t0, c.attributes, t, d.attributes, PlanIn(env, lengthMode, c, op).pieces);
    assert t0 + [] == t0;
  }

  /** A message is counted and then sent: the length found is that of what is sent. */
  method ContentLength(env: Env, client: Client<Op>, n: nat, c: Ctl) returns (count: nat, sent: seq<Byte>)
    requires EnvOk(env) && Serialized(c)
    ensures count == |sent|
  {
    var counting := new Serializer(env, true, c, c.flags.encodingStyle, c.attributes, c.pht);
    var results := counting.Calls(client, n);
    count := counting.out.count;
    ghost var d := counting.Now();
    var sending := new Serializer(env, false, d, counting.flags.encodingStyle, counting.attributes, counting.pht);
    results := sending.Calls(client, n);
    sent := sending.out.sent;
    PassesAgree(env, client, n, c);
  }
}
